/** The connection-liveness state machine of auv/auv.py: a ping marks the
    base station as reachable (lines 242-250); a control tick that finds the
    last ping older than the timeout stops the motors, flushes the radio and
    marks the link lost (lines 144-157). Clock readings are whole numbers
    supplied by the caller. */
module Connection {
  import opened Motors
  import opened Vehicle
  import opened Protocol

  /** The timeout test at the top of every iteration. It fires only when the
      last ping is strictly older than the timeout AND the vehicle still
      counts itself connected; then it zeroes the motors once, flushes the
      radio if there is a device, and clears `connected`. */
  function CheckTimeout(c: Config, s: State, now: int): (r: Step)
    ensures r.state == s.(connected := r.state.connected)
    ensures r.state.connected <==> s.connected && now - s.lastPing <= c.timeout
    ensures s.connected && !r.state.connected ==>
              r.effects == LossEffects(s.radio)
    ensures !(s.connected && !r.state.connected) ==> r.effects == []
  {
    if now - s.lastPing > c.timeout && s.connected then
      Step(s.(connected := false), LossEffects(s.radio))
    else
      Step(s, [])
  }

  /** What handling a loss does: log it, set all four motor speeds to 0, and
      flush the radio when there is a device. The loss is logged once, the
      motors are commanded once and only to stop, and the radio is flushed at
      most once. */
  function LossEffects(radio: Radio): (es: seq<Effect>)
    ensures |es| >= 2 && es[..2] == [ConnectionLost, Motor(Update(STOPPED))]
    ensures Count(es, ConnectionLost) == 1
    ensures Count(es, Motor(Update(STOPPED))) == 1
    ensures forall e :: e in es && e.Motor? ==> e == Motor(Update(STOPPED))
    ensures Count(es, Flush) == (if radio != NoRadio then 1 else 0)
    ensures forall e :: e in es ==> e == ConnectionLost || e == Motor(Update(STOPPED)) || e == Flush
  {
    var flush := if radio != NoRadio then [Flush] else [];
    var es := [ConnectionLost, Motor(Update(STOPPED))] + flush;
    LossEffectsCount(es, flush, ConnectionLost);
    LossEffectsCount(es, flush, Motor(Update(STOPPED)));
    LossEffectsCount(es, flush, Flush);
    es
  }

  /** Counting in the effects of a loss, one effect at a time. */
  lemma LossEffectsCount(es: seq<Effect>, flush: seq<Effect>, e: Effect)
    requires flush == [] || flush == [Flush]
    requires es == [ConnectionLost, Motor(Update(STOPPED))] + flush
    ensures Count(es, e) == (if e == ConnectionLost || e == Motor(Update(STOPPED)) then 1
                             else if e == Flush then |flush| else 0)
  {
    CountOne(ConnectionLost, e);
    CountOne(Motor(Update(STOPPED)), e);
    CountAppend([ConnectionLost], [Motor(Update(STOPPED))], e);
    CountAppend([ConnectionLost, Motor(Update(STOPPED))], flush, e);
    if flush != [] {
      CountOne(Flush, e);
    }
  }

  /** A ping received at clock reading `at`. Only the first ping after a loss
      logs the verification and sets the test speeds [1, 2, 3, 4]; a ping
      while connected only refreshes the time. */
  function OnPing(s: State, at: int): (r: Step)
    ensures r.state == s.(connected := true, lastPing := at)
    ensures s.connected ==> r.effects == []
    ensures !s.connected ==> r.effects == [ConnectionVerified, Motor(Update(Speeds(1, 2, 3, 4)))]
  {
    var es := if s.connected then [] else [ConnectionVerified, Motor(Update(Speeds(1, 2, 3, 4)))];
    Step(s.(connected := true, lastPing := at), es)
  }

  /** After a ping the vehicle stays connected at every later tick whose
      clock reading is at most `timeout` past the ping, including exactly at
      the timeout, and is disconnected at the first tick past it. */
  lemma PingThenTimeout(c: Config, s: State, at: int, now: int)
    ensures CheckTimeout(c, OnPing(s, at).state, now).state.connected <==> now - at <= c.timeout
    ensures now - at == c.timeout ==> CheckTimeout(c, OnPing(s, at).state, now).effects == []
  {
  }

  /** The timeout checks of consecutive ticks with no ping in between. */
  function CheckTimeouts(c: Config, s: State, times: seq<int>): (r: Step)
    ensures r.state == s.(connected := r.state.connected)
    ensures r.state.connected ==> s.connected
    ensures forall e :: e in r.effects ==> e == ConnectionLost || e == Motor(Update(STOPPED)) || e == Flush
    decreases |times|
  {
    if times == [] then Step(s, [])
    else
      var first := CheckTimeout(c, s, times[0]);
      var rest := CheckTimeouts(c, first.state, times[1..]);
      Step(rest.state, first.effects + rest.effects)
  }

  /** Without pings, the loss is handled at most once, however many ticks
      see the timeout: logged once, the motors set to speed 0 once and never
      commanded otherwise, and the radio flushed once if there is a device.
      All of it happens exactly when the vehicle was connected and some tick
      is past the timeout. */
  lemma {:induction false} ZeroedOncePerLoss(c: Config, s: State, times: seq<int>)
    ensures var r := CheckTimeouts(c, s, times);
      var lost := s.connected && exists i :: 0 <= i < |times| && times[i] - s.lastPing > c.timeout;
      && Count(r.effects, ConnectionLost) == (if lost then 1 else 0)
      && Count(r.effects, Motor(Update(STOPPED))) == (if lost then 1 else 0)
      && (forall e :: e in r.effects && e.Motor? ==> e == Motor(Update(STOPPED)))
      && Count(r.effects, Flush) == (if lost && s.radio != NoRadio then 1 else 0)
      && r.state.lastPing == s.lastPing
      && (r.state.connected <==>
            s.connected && forall i :: 0 <= i < |times| ==> times[i] - s.lastPing <= c.timeout)
    decreases |times|
  {
    if times != [] {
      var first := CheckTimeout(c, s, times[0]);
      var rest := CheckTimeouts(c, first.state, times[1..]);
      ZeroedOncePerLoss(c, first.state, times[1..]);
      CountAppend(first.effects, rest.effects, ConnectionLost);
      CountAppend(first.effects, rest.effects, Motor(Update(STOPPED)));
      CountAppend(first.effects, rest.effects, Flush);
      assert forall i :: 0 <= i < |times[1..]| ==> times[1..][i] == times[i + 1];
      if !first.state.connected {
        assert Count(rest.effects, ConnectionLost) == 0;
      }
    }
  }
}
