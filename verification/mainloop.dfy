/** One iteration of `main_loop` (auv/auv.py, lines 141-327) as a pure step
    function, and runs of consecutive iterations. The clock, the radio's
    replies, whether reconnecting succeeds and the pressure sensor's reading
    are inputs of the iteration. */
module MainLoop {
  import opened Bits
  import opened Protocol
  import opened Telemetry
  import opened Motors
  import opened Vehicle
  import opened Frame
  import opened Connection
  import opened Supervisor
  import opened Receiver

  /** The pressure sensor's reading, already converted to whole metres and
      one decimal digit. */
  datatype DepthReading = DepthReading(intPart: nat, digit: nat)

  /** What the outside world supplies to one iteration. */
  datatype Input = Input(
    now: int,
    reconnects: bool,
    depth: DepthReading,
    replies: seq<ReadResult>)

  /** `radio.write(0xFF, 1)`: the one-byte heartbeat sent on every iteration
      with an open radio. */
  const HEARTBEAT := Write(0xFF, 1)

  /** `radio.write(depth_encode, 2)`, for the variant's frame width (two
      bytes for auv.py). When the fields fit their bits, the value written
      carries the depth header in its top bits and both fields below it. */
  function DepthWrite(c: Config, d: DepthReading): (w: Effect)
    requires Depth in c.scheme.header
    ensures w.Write? && w.width == c.scheme.frameBits / 8 && w.value >= 0
    ensures 4 <= c.scheme.shift && d.intPart < Pow2(c.scheme.shift - 4) && d.digit < 16 ==>
              && Shr(w.value, c.scheme.shift) == c.scheme.header[Depth]
              && (w.value / 16) % Pow2(c.scheme.shift - 4) == d.intPart
              && w.value % 16 == d.digit
  {
    var w := Write(DepthFrame(c.scheme, d.intPart, d.digit), c.scheme.frameBits / 8);
    if 4 <= c.scheme.shift && d.intPart < Pow2(c.scheme.shift - 4) && d.digit < 16 then
      DepthFrameLayout(c.scheme, d.intPart, d.digit);
      w
    else
      w
  }

  /** The writes before the drain: the heartbeat always, then the depth frame
      only while connected and with a pressure sensor. */
  function TelemetryWrites(c: Config, s: State, d: DepthReading): (es: seq<Effect>)
    requires Depth in c.scheme.header
    ensures |es| == (if s.connected && s.pressureSensor then 2 else 1) && es[0] == HEARTBEAT
    ensures DepthWrite(c, d) in es[1..] <==> s.connected && s.pressureSensor
    ensures forall e :: e in es ==> e.Write?
  {
    if s.connected && s.pressureSensor then [HEARTBEAT, DepthWrite(c, d)] else [HEARTBEAT]
  }

  /** The branch for a missing or closed radio: try to open a new one, then
      tick the mission. */
  function Reconnect(c: Config, s: State, reconnects: bool): (r: Step)
    ensures r.state.radio == (if reconnects then Open else s.radio)
    ensures r.state == s.(radio := r.state.radio, mission := r.state.mission, timer := r.state.timer)
    ensures s.mission.None? ==> r.effects == [] && r.state.mission.None? && r.state.timer == s.timer
    ensures s.mission.Some? ==>
              && r.state.timer == s.timer + 1
              && (r.state.mission.None? <==> (s.timer + 1) as real > c.budget)
              && Count(r.effects, MissionLoop) == 1
              && Count(r.effects, MissionAbort) == (if r.state.mission.None? then 1 else 0)
    ensures forall e :: e in r.effects ==> e == MissionLoop || e == MissionAbort
  {
    MissionTick(c, if reconnects then s.(radio := Open) else s)
  }

  /** The branch for an open radio: the telemetry writes and the drain, then
      either the mission tick, or, when a read raised, closing and dropping
      the radio and skipping the mission tick. */
  function Exchange(c: Config, s: State, inp: Input): (r: Step)
    requires Depth in c.scheme.header
    ensures ConnectionLost !in r.effects
    ensures r.state.pressureSensor == s.pressureSensor
  {
    var sent := TelemetryWrites(c, s, inp.depth);
    var drained := Drain(s, inp.replies);
    var after := AfterDrain(c, drained);
    Step(after.state, sent + drained.step.effects + after.effects)
  }

  /** What follows the drain: the mission tick, or closing and dropping the
      radio when a read raised. */
  function AfterDrain(c: Config, d: Drained): (r: Step)
    ensures d.raised ==> r == Step(d.step.state.(radio := NoRadio), [Close])
    ensures !d.raised ==> r == MissionTick(c, d.step.state)
    ensures forall e :: e in r.effects ==> e == Close || e == MissionLoop || e == MissionAbort
  {
    if d.raised then Step(d.step.state.(radio := NoRadio), [Close])
    else MissionTick(c, d.step.state)
  }

  /** One iteration of the loop: the timeout check, then one of the two
      branches on the state of the radio. */
  function Tick(c: Config, s: State, inp: Input): (r: Step)
    requires Depth in c.scheme.header
    ensures r.state.pressureSensor == s.pressureSensor
    ensures s.radio != Open ==> r.state.radio == (if inp.reconnects then Open else s.radio)
  {
    var checked := CheckTimeout(c, s, inp.now);
    var rest := if checked.state.radio == Open then Exchange(c, checked.state, inp)
                else Reconnect(c, checked.state, inp.reconnects);
    Step(rest.state, checked.effects + rest.effects)
  }

  /** The drain handles exactly the frames before the first short read. */
  lemma DrainedFrames(s: State, rs: seq<ReadResult>)
    ensures var k := FullPrefix(rs);
      && Drain(s, rs).step.state == Dispatch(s, rs[..k]).state
      && (Drain(s, rs).raised <==> k < |rs| && rs[k].Raised?)
  {
  }

  /** The radio writes among some effects, in order. */
  function Writes(es: seq<Effect>): (ws: seq<Effect>)
    ensures |ws| <= |es|
    decreases |es|
  {
    if es == [] then []
    else Writes(es[..|es| - 1]) + (if es[|es| - 1].Write? then [es[|es| - 1]] else [])
  }

  lemma {:induction false} WritesMembers(es: seq<Effect>, e: Effect)
    ensures e in Writes(es) <==> e in es && e.Write?
    decreases |es|
  {
    if es != [] {
      WritesMembers(es[..|es| - 1], e);
      assert es == es[..|es| - 1] + [es[|es| - 1]];
    }
  }

  lemma {:induction false} WritesAppend(a: seq<Effect>, b: seq<Effect>)
    ensures Writes(a + b) == Writes(a) + Writes(b)
    decreases |b|
  {
    if b == [] {
      assert a + b == a;
    } else {
      assert (a + b)[..|a + b| - 1] == a + b[..|b| - 1];
      WritesAppend(a, b[..|b| - 1]);
    }
  }

  lemma {:induction false} WritesOnly(es: seq<Effect>)
    requires forall e :: e in es ==> e.Write?
    ensures Writes(es) == es
    decreases |es|
  {
    if es != [] {
      WritesOnly(es[..|es| - 1]);
      assert es == es[..|es| - 1] + [es[|es| - 1]];
    }
  }

  lemma {:induction false} WritesNone(es: seq<Effect>)
    requires forall e :: e in es ==> !e.Write?
    ensures Writes(es) == []
    decreases |es|
  {
    if es != [] {
      WritesNone(es[..|es| - 1]);
    }
  }

  /** The writes of some writes followed by effects that write nothing. */
  lemma WritesThenOthers(ws: seq<Effect>, xs: seq<Effect>, ys: seq<Effect>)
    requires forall e :: e in ws ==> e.Write?
    requires forall e :: e in xs ==> !e.Write?
    requires forall e :: e in ys ==> !e.Write?
    ensures Writes(ws + xs + ys) == ws
  {
    WritesOnly(ws);
    WritesNone(xs);
    WritesNone(ys);
    WritesAppend(ws, xs);
    WritesAppend(ws + xs, ys);
  }

  /** In the open-radio branch, the only writes are the telemetry writes. */
  lemma ExchangeWrites(c: Config, s: State, inp: Input)
    requires Depth in c.scheme.header
    ensures Writes(Exchange(c, s, inp).effects) == TelemetryWrites(c, s, inp.depth)
  {
    var sent := TelemetryWrites(c, s, inp.depth);
    var drained := Drain(s, inp.replies);
    var after := AfterDrain(c, drained);
    WritesThenOthers(sent, drained.step.effects, after.effects);
  }

  /** The only radio writes of an iteration are the telemetry writes, made
      when the radio is open; the timeout handling, frame handling, mission
      tick and exception handling write nothing. */
  lemma TickWrites(c: Config, s: State, inp: Input)
    requires Depth in c.scheme.header
    ensures Writes(Tick(c, s, inp).effects)
         == (if s.radio == Open
             then TelemetryWrites(c, CheckTimeout(c, s, inp.now).state, inp.depth)
             else [])
  {
    var checked := CheckTimeout(c, s, inp.now);
    WritesNone(checked.effects);
    if s.radio == Open {
      var rest := Exchange(c, checked.state, inp);
      ExchangeWrites(c, checked.state, inp);
      WritesAppend(checked.effects, rest.effects);
    } else {
      var rest := Reconnect(c, checked.state, inp.reconnects);
      WritesNone(rest.effects);
      WritesAppend(checked.effects, rest.effects);
    }
  }

  /** The heartbeat goes out on exactly the iterations that find the radio
      open, connected or not. */
  lemma TickHeartbeat(c: Config, s: State, inp: Input)
    requires Depth in c.scheme.header
    ensures HEARTBEAT in Tick(c, s, inp).effects <==> s.radio == Open
  {
    TickWrites(c, s, inp);
    WritesMembers(Tick(c, s, inp).effects, HEARTBEAT);
  }

  /** The depth frame goes out exactly when the radio is open, the vehicle is
      still connected after this iteration's timeout check, and a pressure
      sensor is present. */
  lemma TickDepth(c: Config, s: State, inp: Input)
    requires Valid(c)
    ensures DepthWrite(c, inp.depth) in Tick(c, s, inp).effects
            <==> s.radio == Open && s.pressureSensor
                 && s.connected && inp.now - s.lastPing <= c.timeout
  {
    TickWrites(c, s, inp);
    WritesMembers(Tick(c, s, inp).effects, DepthWrite(c, inp.depth));
    var sent := TelemetryWrites(c, CheckTimeout(c, s, inp.now).state, inp.depth);
    assert DepthWrite(c, inp.depth) != HEARTBEAT;
    assert DepthWrite(c, inp.depth) in sent <==> DepthWrite(c, inp.depth) in sent[1..];
  }

  /** Only the timeout check reports a lost connection, once per iteration
      at most. An iteration that finds the link lost begins by handling the
      loss: the log line, all motor speeds set to 0, and the flush. */
  lemma TickLoss(c: Config, s: State, inp: Input)
    requires Depth in c.scheme.header
    ensures Count(Tick(c, s, inp).effects, ConnectionLost)
         == (if s.connected && inp.now - s.lastPing > c.timeout then 1 else 0)
    ensures s.connected && inp.now - s.lastPing > c.timeout ==>
              |LossEffects(s.radio)| <= |Tick(c, s, inp).effects|
              && Tick(c, s, inp).effects[..|LossEffects(s.radio)|] == LossEffects(s.radio)
  {
    var checked := CheckTimeout(c, s, inp.now);
    var rest := if checked.state.radio == Open then Exchange(c, checked.state, inp)
                else Reconnect(c, checked.state, inp.reconnects);
    assert Tick(c, s, inp).effects == checked.effects + rest.effects;
    CountAbsent(rest.effects, ConnectionLost);
    CountAppend(checked.effects, rest.effects, ConnectionLost);
  }

  /** No full frame among the replies is a ping. */
  predicate NoPing(inp: Input)
  {
    forall i :: 0 <= i < |inp.replies| ==> !IsPing(inp.replies[i])
  }

  /** Without a ping, the open-radio branch leaves the connection alone. */
  lemma ExchangeWithoutPing(c: Config, s: State, inp: Input)
    requires Depth in c.scheme.header
    requires NoPing(inp)
    ensures Exchange(c, s, inp).state.connected == s.connected
    ensures Exchange(c, s, inp).state.lastPing == s.lastPing
  {
    var k := FullPrefix(inp.replies);
    DispatchWithoutPings(s, inp.replies[..k]);
    DrainedFrames(s, inp.replies);
  }

  /** Without a ping, an iteration changes the connection only through the
      timeout check. */
  lemma TickWithoutPing(c: Config, s: State, inp: Input)
    requires Depth in c.scheme.header
    requires NoPing(inp)
    ensures Tick(c, s, inp).state.lastPing == s.lastPing
    ensures Tick(c, s, inp).state.connected
            <==> s.connected && inp.now - s.lastPing <= c.timeout
  {
    var checked := CheckTimeout(c, s, inp.now);
    if checked.state.radio == Open {
      ExchangeWithoutPing(c, checked.state, inp);
    }
  }

  /** Consecutive iterations, each with its own inputs. */
  function Run(c: Config, s: State, inputs: seq<Input>): (r: Step)
    requires Depth in c.scheme.header
    ensures r.state.pressureSensor == s.pressureSensor
    decreases |inputs|
  {
    if inputs == [] then Step(s, [])
    else
      var first := Tick(c, s, inputs[0]);
      var rest := Run(c, first.state, inputs[1..]);
      Step(rest.state, first.effects + rest.effects)
  }

  /** Without pings, the ping time stays, and the vehicle ends connected
      exactly when it started connected and no iteration was past the
      timeout. */
  lemma {:induction false} RunWithoutPings(c: Config, s: State, inputs: seq<Input>)
    requires Depth in c.scheme.header
    requires forall i :: 0 <= i < |inputs| ==> NoPing(inputs[i])
    ensures Run(c, s, inputs).state.lastPing == s.lastPing
    ensures Run(c, s, inputs).state.connected <==>
              s.connected && forall i :: 0 <= i < |inputs| ==> inputs[i].now - s.lastPing <= c.timeout
    decreases |inputs|
  {
    if inputs != [] {
      var first := Tick(c, s, inputs[0]);
      TickWithoutPing(c, s, inputs[0]);
      RunWithoutPings(c, first.state, inputs[1..]);
      assert forall i :: 0 <= i < |inputs[1..]| ==> inputs[1..][i] == inputs[i + 1];
    }
  }

  /** Without pings, a run reports a loss exactly when it starts connected
      and ends disconnected, so at most once. */
  lemma {:induction false} LossCount(c: Config, s: State, inputs: seq<Input>)
    requires Depth in c.scheme.header
    requires forall i :: 0 <= i < |inputs| ==> NoPing(inputs[i])
    ensures Count(Run(c, s, inputs).effects, ConnectionLost)
         == if s.connected && !Run(c, s, inputs).state.connected then 1 else 0
    decreases |inputs|
  {
    if inputs != [] {
      var first := Tick(c, s, inputs[0]);
      var rest := Run(c, first.state, inputs[1..]);
      TickLoss(c, s, inputs[0]);
      TickWithoutPing(c, s, inputs[0]);
      assert forall i :: 0 <= i < |inputs[1..]| ==> NoPing(inputs[1..][i]);
      LossCount(c, first.state, inputs[1..]);
      RunWithoutPings(c, first.state, inputs[1..]);
      CountAppend(first.effects, rest.effects, ConnectionLost);
    }
  }

  /** When pings stop, the loss is reported at most once, however many
      iterations follow: at the first iteration past the timeout if the
      vehicle was connected, and never if it was not. TickLoss states that
      the iteration reporting it begins with the loss handling. */
  lemma LossHandledOnce(c: Config, s: State, inputs: seq<Input>)
    requires Depth in c.scheme.header
    requires forall i :: 0 <= i < |inputs| ==> NoPing(inputs[i])
    ensures Count(Run(c, s, inputs).effects, ConnectionLost) <= 1
    ensures Count(Run(c, s, inputs).effects, ConnectionLost) == 1 <==>
              s.connected && exists i :: 0 <= i < |inputs| && inputs[i].now - s.lastPing > c.timeout
  {
    LossCount(c, s, inputs);
    RunWithoutPings(c, s, inputs);
  }

  /** Whether the drain of some replies ends in a read that raises. */
  predicate Raises(rs: seq<ReadResult>)
  {
    FullPrefix(rs) < |rs| && rs[FullPrefix(rs)].Raised?
  }

  /** The open-radio branch when a read raises, and when none does. */
  lemma ExchangeRaised(c: Config, s: State, inp: Input)
    requires Depth in c.scheme.header
    requires s.radio == Open
    ensures var r := Exchange(c, s, inp);
      && (r.state.radio == NoRadio <==> Raises(inp.replies))
      && (Raises(inp.replies) ==>
            && r.state == Dispatch(s, inp.replies[..FullPrefix(inp.replies)]).state.(radio := NoRadio)
            && |r.effects| > 0 && r.effects[|r.effects| - 1] == Close
            && MissionLoop !in r.effects
            && Flush !in r.effects)
  {
    var sent := TelemetryWrites(c, s, inp.depth);
    var drained := Drain(s, inp.replies);
    var after := AfterDrain(c, drained);
    DrainedFrames(s, inp.replies);
    if drained.raised {
      DispatchOffRadio(s, inp.replies[..FullPrefix(inp.replies)]);
      assert MissionLoop !in sent && Flush !in sent;
    } else {
      assert MissionTick(c, drained.step.state).state.radio == Open;
    }
  }

  /** A read that raises ends the iteration: the frames before it have been
      handled, the radio is closed and dropped, nothing is flushed and the
      mission is not stepped. Otherwise the radio stays open. */
  lemma TickRaised(c: Config, s: State, inp: Input)
    requires Depth in c.scheme.header
    requires s.radio == Open
    ensures var r := Tick(c, s, inp);
      && (r.state.radio == NoRadio <==> Raises(inp.replies))
      && (Raises(inp.replies) ==>
            && r.state == Dispatch(CheckTimeout(c, s, inp.now).state,
                                   inp.replies[..FullPrefix(inp.replies)]).state.(radio := NoRadio)
            && r.effects[|r.effects| - 1] == Close
            && MissionLoop !in r.effects
            && Flush !in r.effects[|CheckTimeout(c, s, inp.now).effects|..])
  {
    var checked := CheckTimeout(c, s, inp.now);
    var rest := Exchange(c, checked.state, inp);
    ExchangeRaised(c, checked.state, inp);
    assert Tick(c, s, inp).effects == checked.effects + rest.effects;
    assert (checked.effects + rest.effects)[|checked.effects|..] == rest.effects;
  }

  /** The first iteration: radio open, no pressure sensor, no ping yet. */
  const FIRST := Initial(Open, false)

  /** The input of an iteration whose first read returns frame f. */
  function OneFrame(now: int, f: seq<bv8>): Input
  {
    Input(now, false, DepthReading(0, 0), [Got(f, now)])
  }

  /** An iteration with an open radio, no timeout, no mission and no
      pressure sensor that reads one frame other than a mission command:
      heartbeat, the frame's handling, flush. */
  lemma TickOneFrame(c: Config, s: State, now: int, f: seq<bv8>)
    requires Depth in c.scheme.header
    requires |f| == 3 && !Decode(f).StartMission?
    requires s.radio == Open && s.mission.None? && !s.pressureSensor
    requires s.connected ==> now - s.lastPing <= c.timeout
    ensures var h := Handle(s, Got(f, now));
      Tick(c, s, OneFrame(now, f)) == Step(h.state, [HEARTBEAT] + h.effects + [Flush])
  {
    var inp := OneFrame(now, f);
    var h := Handle(s, Got(f, now));
    var checked := CheckTimeout(c, s, now);
    assert checked == Step(s, []);
    assert TelemetryWrites(c, s, inp.depth) == [HEARTBEAT];
    assert Dispatch(s, inp.replies[..1]) == h by {
      assert inp.replies[..1][..0] == [];
    }
    var drained := Drain(s, inp.replies);
    assert drained == Drained(Step(h.state, h.effects + [Flush]), false) by {
      assert FullPrefix(inp.replies) == 1;
    }
    assert h.state.mission.None?;
    assert AfterDrain(c, drained) == Step(h.state, []);
    var es := [HEARTBEAT] + h.effects + [Flush];
    Regroup([HEARTBEAT], h.effects, [Flush]);
    assert Exchange(c, s, inp) == Step(h.state, es);
    assert Tick(c, s, inp) == Step(h.state, [] + es);
  }

  /** The effects of a one-frame iteration, regrouped as the heartbeat, the
      frame's handling and the flush; kept apart so that the iteration's
      proof does not search for the regrouping itself. */
  lemma Regroup(a: seq<Effect>, b: seq<Effect>, x: seq<Effect>)
    ensures a + (b + x) + [] == a + b + x
    ensures [] + (a + b + x) == a + b + x
  {
  }

  /** The vehicle after the first ping, at clock reading 1. */
  const PINGED := FIRST.(connected := true, lastPing := 1)

  /** A base station that pings, sends a navigation command with x = 10 and
      y = -30 (turn left, then drive forward), and pings again.
      The first ping connects the vehicle and sets the test speeds. */
  lemma FirstPingConnects()
    ensures Tick(AuvConfig, FIRST, OneFrame(1, Bytes(PING)))
         == Step(PINGED, [HEARTBEAT, ConnectionVerified, Motor(Update(Speeds(1, 2, 3, 4))), Flush])
  {
    assert Decode(Bytes(PING)).Ping?;
    TickOneFrame(AuvConfig, FIRST, 1, Bytes(PING));
  }

  /** The navigation command sends the heartbeat, runs the manoeuvre and
      flushes, leaving the state alone. */
  lemma NavigateWhileConnected()
    ensures Tick(AuvConfig, PINGED, OneFrame(2, EncodeNavigate(10, 30, true)))
         == Step(PINGED, [HEARTBEAT] + MotorEffects(RunMotors(10, -30)) + [Flush])
  {
    NavigateRoundTrip(10, 30, true);
    assert WithoutBit2(10) == 10;
    TickOneFrame(AuvConfig, PINGED, 2, EncodeNavigate(10, 30, true));
  }

  /** The second ping, within the 3-second timeout, only refreshes the time. */
  lemma PingRefreshes()
    ensures Tick(AuvConfig, PINGED, OneFrame(4, Bytes(PING)))
         == Step(PINGED.(lastPing := 4), [HEARTBEAT, Flush])
  {
    assert Decode(Bytes(PING)).Ping?;
    TickOneFrame(AuvConfig, PINGED, 4, Bytes(PING));
  }

  /** A failed reopen sends nothing; a successful one means the next
      iteration sends the heartbeat again. */
  lemma ReconnectThenHeartbeat(c: Config, s: State, inp: Input, next: Input)
    requires Depth in c.scheme.header
    requires s.radio != Open
    ensures HEARTBEAT !in Tick(c, s, inp).effects
    ensures HEARTBEAT in Tick(c, Tick(c, s, inp).state, next).effects <==> inp.reconnects
  {
    TickHeartbeat(c, s, inp);
    TickHeartbeat(c, Tick(c, s, inp).state, next);
  }

  /** An iteration in which no read raises and no mission command arrives. */
  predicate Quiet(inp: Input)
  {
    forall i :: 0 <= i < |inp.replies| ==> !inp.replies[i].Raised? && !IsMissionCommand(inp.replies[i])
  }

  /** In a quiet iteration the open-radio branch treats the mission as the
      mission tick alone would: the same mission and timer afterwards, and
      the mission stepped and aborted as often. */
  lemma ExchangeAsMissionTick(c: Config, s: State, inp: Input, e: Effect)
    requires Depth in c.scheme.header
    requires Quiet(inp)
    requires e == MissionLoop || e == MissionAbort
    ensures Exchange(c, s, inp).state.mission == MissionTick(c, s).state.mission
    ensures Exchange(c, s, inp).state.timer == MissionTick(c, s).state.timer
    ensures Count(Exchange(c, s, inp).effects, e) == Count(MissionTick(c, s).effects, e)
  {
    var sent := TelemetryWrites(c, s, inp.depth);
    var drained := Drain(s, inp.replies);
    var k := FullPrefix(inp.replies);
    DrainedFrames(s, inp.replies);
    DispatchKeepsMission(s, inp.replies[..k]);
    var m := MissionTick(c, drained.step.state);
    MissionTickAgree(c, drained.step.state, s);
    var pre := sent + drained.step.effects;
    assert Exchange(c, s, inp).effects == pre + m.effects;
    CountAbsent(pre, e);
    CountAppend(pre, m.effects, e);
  }

  /** In a quiet iteration the mission fares exactly as under the mission
      tick alone, whatever the radio, the pings and the timeout do. */
  lemma TickAsMissionTick(c: Config, s: State, inp: Input, e: Effect)
    requires Depth in c.scheme.header
    requires Quiet(inp)
    requires e == MissionLoop || e == MissionAbort
    ensures Tick(c, s, inp).state.mission == MissionTick(c, s).state.mission
    ensures Tick(c, s, inp).state.timer == MissionTick(c, s).state.timer
    ensures Count(Tick(c, s, inp).effects, e) == Count(MissionTick(c, s).effects, e)
  {
    var checked := CheckTimeout(c, s, inp.now);
    var t := checked.state;
    var rest: Step;
    if t.radio == Open {
      rest := Exchange(c, t, inp);
      ExchangeAsMissionTick(c, t, inp, e);
    } else {
      rest := Reconnect(c, t, inp.reconnects);
      MissionTickAgree(c, if inp.reconnects then t.(radio := Open) else t, s);
    }
    assert Tick(c, s, inp) == Step(rest.state, checked.effects + rest.effects);
    MissionTickAgree(c, t, s);
    CountAbsent(checked.effects, e);
    CountAppend(checked.effects, rest.effects, e);
  }

  /** Without a mission, quiet iterations leave the mission absent and its
      timer alone. */
  lemma {:induction false} RunIdle(c: Config, s: State, inputs: seq<Input>)
    requires Depth in c.scheme.header
    requires s.mission.None?
    requires forall i :: 0 <= i < |inputs| ==> Quiet(inputs[i])
    ensures Run(c, s, inputs).state.mission.None?
    ensures Run(c, s, inputs).state.timer == s.timer
    decreases |inputs|
  {
    if inputs != [] {
      var first := Tick(c, s, inputs[0]);
      assert Run(c, s, inputs).state == Run(c, first.state, inputs[1..]).state;
      TickAsMissionTick(c, s, inputs[0], MissionLoop);
      assert forall i :: 0 <= i < |inputs[1..]| ==> Quiet(inputs[1..][i]);
      RunIdle(c, first.state, inputs[1..]);
    }
  }

  /** Over quiet iterations a running mission whose timer is below k, the
      first count over the budget, keeps running until the timer reaches k
      and is then gone; the timer stops at k. */
  lemma {:induction false} RunMissionState(c: Config, s: State, inputs: seq<Input>, k: int)
    requires Depth in c.scheme.header
    requires k as real > c.budget && (k - 1) as real <= c.budget
    requires s.mission.Some? && s.timer < k
    requires forall i :: 0 <= i < |inputs| ==> Quiet(inputs[i])
    ensures Run(c, s, inputs).state.mission.None? <==> s.timer + |inputs| >= k
    ensures Run(c, s, inputs).state.timer == s.timer + Min(|inputs|, k - s.timer)
    decreases |inputs|
  {
    if inputs != [] {
      var first := Tick(c, s, inputs[0]);
      assert Run(c, s, inputs).state == Run(c, first.state, inputs[1..]).state;
      TickAsMissionTick(c, s, inputs[0], MissionLoop);
      OverBudget(c, s.timer + 1, k);
      assert forall i :: 0 <= i < |inputs[1..]| ==> Quiet(inputs[1..][i]);
      if first.state.mission.None? {
        RunIdle(c, first.state, inputs[1..]);
      } else {
        RunMissionState(c, first.state, inputs[1..], k);
      }
    }
  }

  /** Over quiet iterations the mission is aborted exactly when the run
      starts with a mission and ends without one, so at most once. */
  lemma {:induction false} RunAbortCount(c: Config, s: State, inputs: seq<Input>)
    requires Depth in c.scheme.header
    requires forall i :: 0 <= i < |inputs| ==> Quiet(inputs[i])
    ensures Count(Run(c, s, inputs).effects, MissionAbort)
         == if s.mission.Some? && Run(c, s, inputs).state.mission.None? then 1 else 0
    decreases |inputs|
  {
    if inputs != [] {
      var first := Tick(c, s, inputs[0]);
      var rest := Run(c, first.state, inputs[1..]);
      assert Run(c, s, inputs) == Step(rest.state, first.effects + rest.effects);
      TickAsMissionTick(c, s, inputs[0], MissionAbort);
      assert forall i :: 0 <= i < |inputs[1..]| ==> Quiet(inputs[1..][i]);
      RunAbortCount(c, first.state, inputs[1..]);
      if first.state.mission.None? {
        RunIdle(c, first.state, inputs[1..]);
      }
      CountAppend(first.effects, rest.effects, MissionAbort);
    }
  }

  /** Over quiet iterations the mission is stepped once for every count its
      timer advances. */
  lemma {:induction false} RunLoopCount(c: Config, s: State, inputs: seq<Input>)
    requires Depth in c.scheme.header
    requires forall i :: 0 <= i < |inputs| ==> Quiet(inputs[i])
    ensures Count(Run(c, s, inputs).effects, MissionLoop) == Run(c, s, inputs).state.timer - s.timer
    decreases |inputs|
  {
    if inputs != [] {
      var first := Tick(c, s, inputs[0]);
      var rest := Run(c, first.state, inputs[1..]);
      assert Run(c, s, inputs) == Step(rest.state, first.effects + rest.effects);
      TickAsMissionTick(c, s, inputs[0], MissionLoop);
      assert forall i :: 0 <= i < |inputs[1..]| ==> Quiet(inputs[1..][i]);
      RunLoopCount(c, first.state, inputs[1..]);
      CountAppend(first.effects, rest.effects, MissionLoop);
    }
  }

  /** A running mission whose timer is below FirstOver(budget) is stepped on
      each quiet iteration until its timer reaches that count, and is aborted
      exactly once, on the iteration that reaches it. */
  lemma RunAbortsAtBudget(c: Config, s: State, inputs: seq<Input>)
    requires Depth in c.scheme.header
    requires s.mission.Some? && s.timer < FirstOver(c.budget)
    requires forall i :: 0 <= i < |inputs| ==> Quiet(inputs[i])
    ensures var r := Run(c, s, inputs);
      var k := FirstOver(c.budget);
      && Count(r.effects, MissionAbort) == (if s.timer + |inputs| >= k then 1 else 0)
      && Count(r.effects, MissionLoop) == Min(|inputs|, k - s.timer)
      && (r.state.mission.None? <==> s.timer + |inputs| >= k)
  {
    var k := FirstOver(c.budget);
    RunMissionState(c, s, inputs, k);
    RunAbortCount(c, s, inputs);
    RunLoopCount(c, s, inputs);
  }

  /** The open-radio branch of the iteration that reads `start_mission(0)`'s
      frame and no other: whatever ran before, the new mission is stepped by
      the mission tick that ends the branch. */
  lemma ExchangeStarts(c: Config, s: State, inp: Input, at: int)
    requires Depth in c.scheme.header
    requires inp.replies == [Got(EncodeStartMission(0), at)]
    ensures var r := Exchange(c, s, inp);
      var m := MissionTick(c, Start(s, 0));
      && r.state.mission == m.state.mission && r.state.timer == 1
      && Count(r.effects, MissionLoop) == 1
      && Count(r.effects, MissionAbort) == Count(m.effects, MissionAbort)
  {
    var sent := TelemetryWrites(c, s, inp.depth);
    var drained := Drain(s, inp.replies);
    StartMissionRoundTrip(0);
    assert FullPrefix(inp.replies) == 1;
    DrainedFrames(s, inp.replies);
    assert inp.replies[..1][..0] == [];
    assert drained.step.state == Start(s, 0);
    assert !drained.raised;
    var m := MissionTick(c, drained.step.state);
    var pre := sent + drained.step.effects;
    assert Exchange(c, s, inp).effects == pre + m.effects;
    CountAbsent(pre, MissionLoop);
    CountAbsent(pre, MissionAbort);
    CountAppend(pre, m.effects, MissionLoop);
    CountAppend(pre, m.effects, MissionAbort);
  }

  /** The iteration that reads `start_mission(0)`'s frame and no other: the
      new mission is stepped once by the same iteration, so its timer is
      already 1, and it is aborted at once when 1 exceeds the budget. */
  lemma StartingTick(c: Config, s: State, inp: Input, at: int)
    requires Depth in c.scheme.header
    requires s.radio == Open
    requires inp.replies == [Got(EncodeStartMission(0), at)]
    ensures var r := Tick(c, s, inp);
      && r.state.timer == 1
      && (r.state.mission.None? <==> 1.0 > c.budget)
      && Count(r.effects, MissionLoop) == 1
      && Count(r.effects, MissionAbort) == (if 1.0 > c.budget then 1 else 0)
  {
    var checked := CheckTimeout(c, s, inp.now);
    var rest := Exchange(c, checked.state, inp);
    assert Tick(c, s, inp) == Step(rest.state, checked.effects + rest.effects);
    ExchangeStarts(c, checked.state, inp, at);
    CheckTimeoutNoMission(c, s, inp.now);
    CountAppend(checked.effects, rest.effects, MissionLoop);
    CountAppend(checked.effects, rest.effects, MissionAbort);
  }

  /** The timeout check neither steps nor aborts the mission. */
  lemma CheckTimeoutNoMission(c: Config, s: State, now: int)
    ensures Count(CheckTimeout(c, s, now).effects, MissionLoop) == 0
    ensures Count(CheckTimeout(c, s, now).effects, MissionAbort) == 0
  {
    CountAbsent(CheckTimeout(c, s, now).effects, MissionLoop);
    CountAbsent(CheckTimeout(c, s, now).effects, MissionAbort);
  }

  /** A run whose first iteration reads `start_mission(0)`'s frame and whose
      other iterations are quiet: counting the starting iteration, the
      mission is stepped on each of the first FirstOver(budget) iterations
      (1715 for auv.py) and aborted exactly once, on the last of them. */
  lemma StartedRunAbortsAtBudget(c: Config, s: State, start: Input, at: int, quiet: seq<Input>)
    requires Depth in c.scheme.header && c.budget >= 0.0
    requires s.radio == Open
    requires start.replies == [Got(EncodeStartMission(0), at)]
    requires forall i :: 0 <= i < |quiet| ==> Quiet(quiet[i])
    ensures var r := Run(c, s, [start] + quiet);
      var n := 1 + |quiet|;
      var k := FirstOver(c.budget);
      && Count(r.effects, MissionAbort) == (if n >= k then 1 else 0)
      && Count(r.effects, MissionLoop) == Min(n, k)
      && (r.state.mission.None? <==> n >= k)
  {
    var k := FirstOver(c.budget);
    var first := Tick(c, s, start);
    var rest := Run(c, first.state, quiet);
    StartingTick(c, s, start, at);
    FirstOverOne(c.budget);
    RunFirst(c, s, start, quiet);
    RunAfterStart(c, first.state, quiet);
    StartedCounts(first, rest, |quiet|, k);
  }

  /** The counts of the starting iteration and of the quiet ones after it
      add up to the counts of the whole run. */
  lemma StartedCounts(first: Step, rest: Step, n: nat, k: int)
    requires k >= 1 && (first.state.mission.None? <==> k == 1)
    requires Count(first.effects, MissionLoop) == 1
    requires Count(first.effects, MissionAbort) == (if k == 1 then 1 else 0)
    requires Count(rest.effects, MissionLoop) == Min(n, k - 1)
    requires Count(rest.effects, MissionAbort) == (if first.state.mission.Some? && 1 + n >= k then 1 else 0)
    ensures Count(first.effects + rest.effects, MissionLoop) == Min(1 + n, k)
    ensures Count(first.effects + rest.effects, MissionAbort) == (if 1 + n >= k then 1 else 0)
  {
    CountAppend(first.effects, rest.effects, MissionLoop);
    CountAppend(first.effects, rest.effects, MissionAbort);
  }

  /** What quiet iterations do after the starting one, which leaves the
      timer at 1 and the mission gone exactly when the budget is below 1. */
  lemma RunAfterStart(c: Config, t: State, quiet: seq<Input>)
    requires Depth in c.scheme.header
    requires FirstOver(c.budget) >= 1
    requires t.timer == 1 && (t.mission.None? <==> FirstOver(c.budget) == 1)
    requires forall i :: 0 <= i < |quiet| ==> Quiet(quiet[i])
    ensures var r := Run(c, t, quiet);
      var k := FirstOver(c.budget);
      && Count(r.effects, MissionAbort) == (if t.mission.Some? && 1 + |quiet| >= k then 1 else 0)
      && Count(r.effects, MissionLoop) == Min(|quiet|, k - 1)
      && (r.state.mission.None? <==> 1 + |quiet| >= k)
  {
    if t.mission.None? {
      RunIdle(c, t, quiet);
      RunAbortCount(c, t, quiet);
      RunLoopCount(c, t, quiet);
    } else {
      RunAbortsAtBudget(c, t, quiet);
    }
  }

  /** A run is its first iteration followed by the run of the others. */
  lemma RunFirst(c: Config, s: State, first: Input, others: seq<Input>)
    requires Depth in c.scheme.header
    ensures var t := Tick(c, s, first);
      var rest := Run(c, t.state, others);
      Run(c, s, [first] + others) == Step(rest.state, t.effects + rest.effects)
  {
    assert ([first] + others)[0] == first && ([first] + others)[1..] == others;
  }
}
