/** The mission supervisor of auv/auv.py: `start_mission` (lines 329-344),
    the per-iteration mission tick with its time budget (lines 317-325) and
    `abort_mission` (lines 351-355). */
module Supervisor {
  import opened Vehicle
  import opened Protocol

  /** `start_mission(id)`: mission 0 installs a fresh echo-location mission
      and resets the timer, replacing any mission already running; every other
      id is ignored. */
  function Start(s: State, id: int): (r: State)
    ensures id == 0 ==> r.mission == Some(EchoLocation) && r.timer == 0
    ensures r == s.(mission := r.mission, timer := r.timer)
    ensures id != 0 ==> r == s
  {
    if id == 0 then s.(mission := Some(EchoLocation), timer := 0) else s
  }

  /** `abort_mission()`: clears the mission, then runs its abort hook. */
  function Abort(s: State): (r: Step)
    ensures r.state.mission.None?
    ensures r.state == s.(mission := None)
    ensures r.effects == [MissionAbort]
  {
    Step(s.(mission := None), [MissionAbort])
  }

  /** The end of an iteration: with a mission present, run one mission step
      and count it; once the count is above the budget, abort. The timer is
      not reset by the abort. */
  function MissionTick(c: Config, s: State): (r: Step)
    ensures s.mission.None? ==> r == Step(s, [])
    ensures s.mission.Some? ==> r.state.timer == s.timer + 1 && |r.effects| > 0 && r.effects[0] == MissionLoop
    ensures s.mission.Some? ==>
              (r.state.mission.None? <==> (s.timer + 1) as real > c.budget)
    ensures Count(r.effects, MissionAbort) == (if s.mission.Some? && r.state.mission.None? then 1 else 0)
    ensures Count(r.effects, MissionLoop) == (if s.mission.Some? then 1 else 0)
    ensures r.state.mission.Some? ==> r.state.mission == s.mission
    ensures r.state == s.(mission := r.state.mission, timer := r.state.timer)
    ensures forall e :: e in r.effects ==> e == MissionLoop || e == MissionAbort
  {
    if s.mission.None? then Step(s, [])
    else
      var counted := s.(timer := s.timer + 1);
      if counted.timer as real > c.budget then
        var aborted := Abort(counted);
        assert [MissionLoop] + aborted.effects == [MissionLoop, MissionAbort];
        assert [MissionLoop, MissionAbort][..1] == [MissionLoop];
        Step(aborted.state, [MissionLoop] + aborted.effects)
      else
        Step(counted, [MissionLoop])
  }

  /** n iterations in which nothing but the mission tick happens. */
  function MissionTicks(c: Config, s: State, n: nat): (r: Step)
    ensures r.state == s.(mission := r.state.mission, timer := r.state.timer)
    ensures s.timer <= r.state.timer <= s.timer + n
    ensures r.state.mission.Some? ==> r.state.mission == s.mission
    ensures forall e :: e in r.effects ==> e == MissionLoop || e == MissionAbort
    decreases n
  {
    if n == 0 then Step(s, [])
    else
      var first := MissionTick(c, s);
      var rest := MissionTicks(c, first.state, n - 1);
      Step(rest.state, first.effects + rest.effects)
  }

  /** The mission tick depends only on the mission and its timer. */
  lemma MissionTickAgree(c: Config, a: State, b: State)
    requires a.mission == b.mission && a.timer == b.timer
    ensures MissionTick(c, a).effects == MissionTick(c, b).effects
    ensures MissionTick(c, a).state.mission == MissionTick(c, b).state.mission
    ensures MissionTick(c, a).state.timer == MissionTick(c, b).state.timer
  {
  }

  function Min(a: int, b: int): int
  {
    if a <= b then a else b
  }

  /** With k the first count over the budget, a count up to k is over the
      budget only when it is k. */
  lemma OverBudget(c: Config, t: int, k: int)
    requires k as real > c.budget && (k - 1) as real <= c.budget
    requires t <= k
    ensures t as real > c.budget <==> t == k
  {
    if t < k {
      assert t as real <= (k - 1) as real;
    }
  }

  /** A running mission whose timer is below k, the first count above the
      budget, keeps running until the timer reaches k and is then gone; the
      timer stops at k. */
  lemma {:induction false} RunsUntilBudget(c: Config, s: State, n: nat, k: int)
    requires k as real > c.budget && (k - 1) as real <= c.budget
    requires s.mission.Some? && s.timer < k
    ensures var r := MissionTicks(c, s, n);
      && (r.state.mission.None? <==> s.timer + n >= k)
      && r.state.timer == s.timer + Min(n, k - s.timer)
    decreases n
  {
    if n > 0 {
      var first := MissionTick(c, s);
      var rest := MissionTicks(c, first.state, n - 1);
      assert MissionTicks(c, s, n) == Step(rest.state, first.effects + rest.effects);
      OverBudget(c, s.timer + 1, k);
      if first.state.mission.None? {
        IdleTicks(c, first.state, n - 1);
      } else {
        RunsUntilBudget(c, first.state, n - 1, k);
      }
    }
  }

  /** Over the same iterations the mission is aborted exactly once, at the
      iteration that reaches k, and not at all before. */
  lemma {:induction false} AbortedExactlyOnce(c: Config, s: State, n: nat, k: int)
    requires k as real > c.budget && (k - 1) as real <= c.budget
    requires s.mission.Some? && s.timer < k
    ensures Count(MissionTicks(c, s, n).effects, MissionAbort) == (if s.timer + n >= k then 1 else 0)
    decreases n
  {
    if n > 0 {
      var first := MissionTick(c, s);
      var rest := MissionTicks(c, first.state, n - 1);
      assert MissionTicks(c, s, n) == Step(rest.state, first.effects + rest.effects);
      OverBudget(c, s.timer + 1, k);
      CountAppend(first.effects, rest.effects, MissionAbort);
      if first.state.mission.None? {
        IdleTicks(c, first.state, n - 1);
      } else {
        AbortedExactlyOnce(c, first.state, n - 1, k);
      }
    }
  }

  /** The mission is stepped once per iteration up to and including the one
      that reaches k, and never after. */
  lemma {:induction false} SteppedUntilBudget(c: Config, s: State, n: nat, k: int)
    requires k as real > c.budget && (k - 1) as real <= c.budget
    requires s.mission.Some? && s.timer < k
    ensures Count(MissionTicks(c, s, n).effects, MissionLoop) == Min(n, k - s.timer)
    decreases n
  {
    if n > 0 {
      var first := MissionTick(c, s);
      var rest := MissionTicks(c, first.state, n - 1);
      assert MissionTicks(c, s, n) == Step(rest.state, first.effects + rest.effects);
      OverBudget(c, s.timer + 1, k);
      CountAppend(first.effects, rest.effects, MissionLoop);
      assert Count(first.effects, MissionLoop) == 1;
      if first.state.mission.None? {
        IdleTicks(c, first.state, n - 1);
        assert Count(rest.effects, MissionLoop) == 0 && s.timer + 1 == k;
      } else {
        SteppedUntilBudget(c, first.state, n - 1, k);
        assert Count(rest.effects, MissionLoop) == Min(n - 1, k - s.timer - 1);
      }
    }
  }

  /** Without a mission, ticks do nothing. */
  lemma {:induction false} IdleTicks(c: Config, s: State, n: nat)
    requires s.mission.None?
    ensures MissionTicks(c, s, n) == Step(s, [])
    decreases n
  {
    if n > 0 {
      IdleTicks(c, s, n - 1);
    }
  }

  /** Starting mission 0 and then ticking: the mission is stepped on each of
      the first FirstOver(budget) ticks (1715 for auv.py's constants) and
      aborted exactly once, at the last of them. */
  lemma StartThenRunOut(c: Config, s: State, n: nat)
    requires c.budget >= 0.0
    ensures var r := MissionTicks(c, Start(s, 0), n);
      && Count(r.effects, MissionAbort) == (if n >= FirstOver(c.budget) then 1 else 0)
      && Count(r.effects, MissionLoop) == Min(n, FirstOver(c.budget))
      && (r.state.mission.None? <==> n >= FirstOver(c.budget))
  {
    AbortedExactlyOnce(c, Start(s, 0), n, FirstOver(c.budget));
    SteppedUntilBudget(c, Start(s, 0), n, FirstOver(c.budget));
    RunsUntilBudget(c, Start(s, 0), n, FirstOver(c.budget));
  }

  lemma AuvMissionBudget(s: State, n: nat)
    ensures var r := MissionTicks(AuvConfig, Start(s, 0), n);
      && Count(r.effects, MissionAbort) == (if n >= 1715 then 1 else 0)
      && (r.state.mission.None? <==> n >= 1715)
  {
    FirstOverBudgets();
    StartThenRunOut(AuvConfig, s, n);
  }
}
