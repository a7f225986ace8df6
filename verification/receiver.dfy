/** The read-drain loop of auv/auv.py (lines 235-308): read 3 bytes at a
    time, handle every full frame in arrival order, stop at the first read
    that does not return exactly 3 bytes, then flush the radio. A read that
    raises ends the iteration through the exception handler instead. */
module Receiver {
  import opened Motors
  import opened Vehicle
  import opened Frame
  import opened Connection
  import opened Supervisor

  /** The outcome of one `radio.read(3)`: the bytes returned (empty on a
      read timeout) with the clock reading at which they are handled, or an
      I/O exception. */
  datatype ReadResult = Got(data: seq<bv8>, at: int) | Raised

  predicate IsFrame(r: ReadResult)
  {
    r.Got? && |r.data| == 3
  }

  predicate IsPing(r: ReadResult)
  {
    IsFrame(r) && Decode(r.data).Ping?
  }

  predicate IsMissionCommand(r: ReadResult)
  {
    IsFrame(r) && Decode(r.data).StartMission?
  }

  /** The dispatch of one full frame: a ping feeds the liveness state
      machine, a navigation command runs the open-loop manoeuvre, a mission
      command goes to the supervisor. */
  function Handle(s: State, r: ReadResult): (out: Step)
    requires IsFrame(r)
    ensures Decode(r.data).Ping? ==> out == OnPing(s, r.at)
    ensures Decode(r.data).Navigate? ==>
              out.state == s
              && out.effects == MotorEffects(RunMotors(Decode(r.data).x, Decode(r.data).y))
    ensures Decode(r.data).StartMission? ==>
              out.state == Start(s, Decode(r.data).id) && out.effects == []
    ensures !Decode(r.data).Ping? ==>
              out.state.connected == s.connected && out.state.lastPing == s.lastPing
  {
    match Decode(r.data)
    case Ping => OnPing(s, r.at)
    case Navigate(x, y) => Step(s, MotorEffects(RunMotors(x, y)))
    case StartMission(id) => Step(Start(s, id), [])
  }

  /** The frames handled one after another, in arrival order. */
  function Dispatch(s: State, rs: seq<ReadResult>): (out: Step)
    requires forall i :: 0 <= i < |rs| ==> IsFrame(rs[i])
    ensures out.state.radio == s.radio && out.state.pressureSensor == s.pressureSensor
    decreases |rs|
  {
    if rs == [] then Step(s, [])
    else
      var before := Dispatch(s, rs[..|rs| - 1]);
      var last := Handle(before.state, rs[|rs| - 1]);
      Step(last.state, before.effects + last.effects)
  }

  /** How many reads the drain loop consumes as frames: all reads up to the
      first one that is not exactly 3 bytes. */
  function FullPrefix(rs: seq<ReadResult>): (k: nat)
    ensures k <= |rs|
    ensures forall i :: 0 <= i < k ==> IsFrame(rs[i])
    ensures k < |rs| ==> !IsFrame(rs[k])
    decreases |rs|
  {
    if rs == [] || !IsFrame(rs[0]) then 0 else 1 + FullPrefix(rs[1..])
  }

  /** The result of draining: the state and effects, and whether a read
      raised (the remaining reads are then never made). */
  datatype Drained = Drained(step: Step, raised: bool)

  /** The drain as a whole. The frames before the first short read are
      handled; the radio is flushed afterwards unless a read raised. A script
      of reads that runs out behaves like an empty read. */
  function Drain(s: State, rs: seq<ReadResult>): (d: Drained)
    ensures forall e :: e in d.step.effects ==>
              !e.Write? && !e.Close? && e != ConnectionLost && e != MissionLoop && e != MissionAbort
  {
    var k := FullPrefix(rs);
    var handled := Dispatch(s, rs[..k]);
    DispatchOffRadio(s, rs[..k]);
    if k < |rs| && rs[k].Raised? then Drained(handled, true)
    else Drained(Step(handled.state, handled.effects + [Flush]), false)
  }

  /** The drain loop as the source writes it. */
  method DrainLoop(s: State, rs: seq<ReadResult>) returns (d: Drained)
    ensures d == Drain(s, rs)
    ensures d.raised <==> exists i :: 0 <= i < |rs| && rs[i].Raised? && forall j :: 0 <= j < i ==> IsFrame(rs[j])
    ensures !d.raised ==> |d.step.effects| > 0 && d.step.effects[|d.step.effects| - 1] == Flush
  {
    var i := 0;
    var state := s;
    var effects: seq<Effect> := [];
    while i < |rs| && IsFrame(rs[i])
      invariant 0 <= i <= |rs|
      invariant forall j :: 0 <= j < i ==> IsFrame(rs[j])
      invariant Dispatch(s, rs[..i]) == Step(state, effects)
      decreases |rs| - i
    {
      DispatchNext(s, rs, i);
      var out := Handle(state, rs[i]);
      state, effects := out.state, effects + out.effects;
      i := i + 1;
    }
    FullPrefixIsFirstShort(rs, i);
    if i < |rs| && rs[i].Raised? {
      d := Drained(Step(state, effects), true);
    } else {
      d := Drained(Step(state, effects + [Flush]), false);
    }
    DrainRaises(s, rs);
  }

  /** Handling one more frame extends the dispatch by that frame's handling. */
  lemma DispatchNext(s: State, rs: seq<ReadResult>, i: nat)
    requires i < |rs|
    requires forall j :: 0 <= j <= i ==> IsFrame(rs[j])
    ensures var before := Dispatch(s, rs[..i]);
      var last := Handle(before.state, rs[i]);
      Dispatch(s, rs[..i + 1]) == Step(last.state, before.effects + last.effects)
  {
    assert rs[..i + 1][..i] == rs[..i];
  }

  /** The first read that is not a frame is where the loop stops. */
  lemma FullPrefixIsFirstShort(rs: seq<ReadResult>, i: nat)
    requires i <= |rs|
    requires forall j :: 0 <= j < i ==> IsFrame(rs[j])
    requires i < |rs| ==> !IsFrame(rs[i])
    ensures FullPrefix(rs) == i
  {
  }

  /** The drain ends in the exception handler exactly when some read raises
      after nothing but full frames. */
  lemma DrainRaises(s: State, rs: seq<ReadResult>)
    ensures Drain(s, rs).raised
        <==> exists i :: 0 <= i < |rs| && rs[i].Raised? && forall j :: 0 <= j < i ==> IsFrame(rs[j])
  {
    var k := FullPrefix(rs);
    if exists i :: 0 <= i < |rs| && rs[i].Raised? && forall j :: 0 <= j < i ==> IsFrame(rs[j]) {
      var i :| 0 <= i < |rs| && rs[i].Raised? && forall j :: 0 <= j < i ==> IsFrame(rs[j]);
      FullPrefixIsFirstShort(rs, i);
    }
  }

  /** Handling one frame never touches the radio, never reports a loss and
      never steps the mission. */
  lemma HandleOffRadio(s: State, r: ReadResult)
    requires IsFrame(r)
    ensures forall e :: e in Handle(s, r).effects ==>
              !e.Write? && !e.Flush? && !e.Close? && e != ConnectionLost
              && e != MissionLoop && e != MissionAbort
  {
    var p := Decode(r.data);
    if p.Navigate? {
      var es := MotorEffects(RunMotors(p.x, p.y));
      assert forall e :: e in es ==> e.Motor?;
    }
  }

  /** Handling frames never touches the radio, never reports a loss and
      never steps the mission. */
  lemma {:induction false} DispatchOffRadio(s: State, rs: seq<ReadResult>)
    requires forall i :: 0 <= i < |rs| ==> IsFrame(rs[i])
    ensures forall e :: e in Dispatch(s, rs).effects ==>
              !e.Write? && !e.Flush? && !e.Close? && e != ConnectionLost
              && e != MissionLoop && e != MissionAbort
    decreases |rs|
  {
    if rs != [] {
      var before := Dispatch(s, rs[..|rs| - 1]);
      DispatchOffRadio(s, rs[..|rs| - 1]);
      HandleOffRadio(before.state, rs[|rs| - 1]);
    }
  }

  /** Frames other than pings leave the connection state alone. */
  lemma {:induction false} DispatchWithoutPings(s: State, rs: seq<ReadResult>)
    requires forall i :: 0 <= i < |rs| ==> IsFrame(rs[i])
    requires forall i :: 0 <= i < |rs| ==> !IsPing(rs[i])
    ensures Dispatch(s, rs).state.connected == s.connected
    ensures Dispatch(s, rs).state.lastPing == s.lastPing
    decreases |rs|
  {
    if rs != [] {
      DispatchWithoutPings(s, rs[..|rs| - 1]);
    }
  }

  /** Frames other than mission commands leave the mission and its timer
      alone. */
  lemma {:induction false} DispatchKeepsMission(s: State, rs: seq<ReadResult>)
    requires forall i :: 0 <= i < |rs| ==> IsFrame(rs[i])
    requires forall i :: 0 <= i < |rs| ==> !IsMissionCommand(rs[i])
    ensures Dispatch(s, rs).state.mission == s.mission
    ensures Dispatch(s, rs).state.timer == s.timer
    decreases |rs|
  {
    if rs != [] {
      DispatchKeepsMission(s, rs[..|rs| - 1]);
    }
  }
}
