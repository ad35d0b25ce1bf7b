/**
  The timer-driven purger of app/services/retention/purge.ts: `start`, `stop`, `runOnce` and the
  overlap guard they share. What one sweep does to the tables is the subject of Retention.

  A sweep's promise settles (`Swept`), and then its `finally` clears the guard (`Released`), on which
  everyone who was handed that promise, a `stop` included, goes on.
 */
module Purger {
  import opened Wrappers

  type SweepId = nat

  datatype Phase = Sweeping | Swept | Released

  datatype Stop = Awaiting(sweep: SweepId) | Resolved

  datatype State = State(timer: bool, inFlight: Option<SweepId>, sweeps: seq<Phase>, stops: seq<Stop>)

  datatype Step =
    | Start
    | TimerFires
    | RunOnce
    | SweepSettles(sweep: SweepId)
    | GuardReleases(sweep: SweepId)
    | CallStop
    | StopResolves(stop: nat)

  const INIT: State := State(false, None, [], [])

  predicate Enabled(s: State, step: Step) {
    match step
    case TimerFires => s.timer
    case SweepSettles(p) => p < |s.sweeps| && s.sweeps[p] == Sweeping
    case GuardReleases(p) => p < |s.sweeps| && s.sweeps[p] == Swept
    case StopResolves(j) =>
      && j < |s.stops| && s.stops[j].Awaiting?
      && s.stops[j].sweep < |s.sweeps| && s.sweeps[s.stops[j].sweep] == Released
    case _ => true
  }

  function Guarded(s: State): State {
    if s.inFlight.Some? then s else s.(sweeps := s.sweeps + [Sweeping], inFlight := Some(|s.sweeps|))
  }

  /** `active`: whether the policy sets any window. */
  function Apply(active: bool, s: State, step: Step): State
    requires Enabled(s, step)
  {
    match step
    case Start => if s.timer || !active then s else Guarded(s.(timer := true))
    case TimerFires => Guarded(s)
    case RunOnce => if active then Guarded(s) else s
    case SweepSettles(p) => s.(sweeps := s.sweeps[p := Swept])
    case GuardReleases(p) => s.(sweeps := s.sweeps[p := Released], inFlight := None)
    case CallStop =>
      s.(timer := false, stops := s.stops + [if s.inFlight.Some? then Awaiting(s.inFlight.value) else Resolved])
    case StopResolves(j) => s.(stops := s.stops[j := Resolved])
  }

  class Purger {
    const active: bool
    var timer: bool
    var inFlight: Option<SweepId>
    var sweeps: seq<Phase>
    var stops: seq<Stop>

    function Abs(): State
      reads this
    {
      State(timer, inFlight, sweeps, stops)
    }

    constructor (active: bool)
      ensures this.active == active && Abs() == INIT
    {
      this.active := active;
      timer, inFlight, sweeps, stops := false, None, [], [];
    }

    method RunGuarded() returns (run: SweepId)
      modifies this
      ensures Abs() == Guarded(old(Abs()))
      ensures inFlight == Some(run)
    {
      if inFlight.Some? { return inFlight.value; }
      run := |sweeps|;
      sweeps := sweeps + [Sweeping];
      inFlight := Some(run);
    }

    method StartTimer()
      modifies this
      ensures Abs() == Apply(active, old(Abs()), Start)
    {
      if timer { return; }
      if !active { return; }
      timer := true;
      var run := RunGuarded();
    }

    /** None: the empty result, without a sweep. */
    method SweepNow() returns (run: Option<SweepId>)
      modifies this
      ensures Abs() == Apply(active, old(Abs()), RunOnce)
      ensures run == if active then inFlight else None
    {
      if !active { return None; }
      var id := RunGuarded();
      return Some(id);
    }

    /** The `finally` of a settled sweep. */
    method Release(p: SweepId)
      requires p < |sweeps| && sweeps[p] == Swept
      modifies this
      ensures Abs() == Apply(active, old(Abs()), GuardReleases(p))
    {
      sweeps := sweeps[p := Released];
      inFlight := None;
    }

    method StopTimer()
      modifies this
      ensures Abs() == Apply(active, old(Abs()), CallStop)
    {
      timer := false;
      stops := stops + [if inFlight.Some? then Awaiting(inFlight.value) else Resolved];
    }
  }

  // ---------------------------------------------------------------------------------------------
  // Runs: any interleaving at all of the steps above.
  // ---------------------------------------------------------------------------------------------

  ghost predicate IsRun(active: bool, s0: State, steps: seq<Step>)
    decreases |steps|, 0
  {
    steps == [] ||
    (IsRun(active, s0, steps[..|steps| - 1]) && Enabled(After(active, s0, steps[..|steps| - 1]), steps[|steps| - 1]))
  }

  ghost function After(active: bool, s0: State, steps: seq<Step>): State
    requires IsRun(active, s0, steps)
    decreases |steps|, 1
  {
    if steps == [] then s0 else Apply(active, After(active, s0, steps[..|steps| - 1]), steps[|steps| - 1])
  }

  predicate Unfinished(s: State, p: SweepId) { p < |s.sweeps| && s.sweeps[p] != Released }

  /** The guard names exactly the unfinished sweep; an inactive purger never has one. */
  ghost predicate Inv(active: bool, s: State) {
    && (forall p: nat :: Unfinished(s, p) <==> s.inFlight == Some(p))
    && (s.timer || s.sweeps != [] ==> active)
  }

  lemma StepKeepsInv(active: bool, s: State, step: Step)
    requires Inv(active, s) && Enabled(s, step)
    ensures Inv(active, Apply(active, s, step))
  {
    var s' := Apply(active, s, step);
    forall p: nat ensures Unfinished(s', p) <==> s'.inFlight == Some(p) {
      assert Unfinished(s, p) <==> s.inFlight == Some(p);
      if step.SweepSettles? || step.GuardReleases? { assert Unfinished(s, step.sweep); }
      if s.inFlight.Some? { assert Unfinished(s, s.inFlight.value); }
    }
  }

  lemma {:induction false} RunKeepsInv(active: bool, s0: State, steps: seq<Step>)
    requires Inv(active, s0) && IsRun(active, s0, steps)
    ensures Inv(active, After(active, s0, steps))
  {
    if steps != [] {
      RunKeepsInv(active, s0, steps[..|steps| - 1]);
      StepKeepsInv(active, After(active, s0, steps[..|steps| - 1]), steps[|steps| - 1]);
    }
  }

  /**
    Sweeps never overlap, in any run whatever: timer firings, `runOnce`, `start` and `stop` in any
    order. A caller who asks for a sweep during one is handed that one, and without any retention
    window no sweep ever runs.
   */
  lemma SweepsNeverOverlap(active: bool, steps: seq<Step>, p: SweepId, q: SweepId)
    requires IsRun(active, INIT, steps)
    ensures var s := After(active, INIT, steps);
            && (Unfinished(s, p) && Unfinished(s, q) ==> p == q)
            && (Unfinished(s, p) ==> Guarded(s) == s && s.inFlight == Some(p))
            && (!active ==> s.sweeps == [])
  {
    RunKeepsInv(active, INIT, steps);
    var s := After(active, INIT, steps);
    assert Unfinished(s, p) <==> s.inFlight == Some(p);
    assert Unfinished(s, q) <==> s.inFlight == Some(q);
  }

  /**
    Sweeps do happen: after `start` with some window set, a timer firing or `runOnce`, a sweep is in
    flight, a fresh one if none was; and the timer fires from `start` to `stop`.
   */
  lemma AskingSweeps(active: bool, steps: seq<Step>, step: Step)
    requires IsRun(active, INIT, steps) && Enabled(After(active, INIT, steps), step)
    ensures var s := After(active, INIT, steps);
            var s' := Apply(active, s, step);
            && ((step.Start? && active && !s.timer) || step.TimerFires? || (step.RunOnce? && active) ==>
                  exists p: nat :: s'.inFlight == Some(p) && Unfinished(s', p) && (p < |s.sweeps| ==> s.inFlight == Some(p)))
            && (step.Start? ==> (s'.timer <==> active)) && (step.CallStop? ==> !s'.timer)
            && (!step.Start? && !step.CallStop? ==> s'.timer == s.timer)
  {
    RunKeepsInv(active, INIT, steps);
    StepKeepsInv(active, After(active, INIT, steps), step);
    var s' := Apply(active, After(active, INIT, steps), step);
    if s'.inFlight.Some? { assert Unfinished(s', s'.inFlight.value); }
  }

  /** Nothing can start a sweep by itself, and a sweep still running is the one the stop awaits. */
  ghost predicate Stopping(s: State, stop: nat, sweeps: nat) {
    && !s.timer && |s.sweeps| == sweeps && stop < |s.stops|
    && (s.inFlight.Some? ==> s.stops[stop] == Awaiting(s.inFlight.value))
  }

  lemma StepKeepsStopping(active: bool, s: State, step: Step, stop: nat, sweeps: nat)
    requires Inv(active, s) && Enabled(s, step) && Stopping(s, stop, sweeps)
    requires !step.Start? && !step.RunOnce?
    ensures Stopping(Apply(active, s, step), stop, sweeps)
  {
  }

  lemma {:induction false} StoppingPersists(active: bool, s0: State, steps: seq<Step>, stop: nat, sweeps: nat)
    requires Inv(active, s0) && Stopping(s0, stop, sweeps) && IsRun(active, s0, steps)
    requires forall step <- steps :: !step.Start? && !step.RunOnce?
    ensures Stopping(After(active, s0, steps), stop, sweeps)
  {
    if steps != [] {
      RunKeepsInv(active, s0, steps[..|steps| - 1]);
      StoppingPersists(active, s0, steps[..|steps| - 1], stop, sweeps);
      StepKeepsStopping(active, After(active, s0, steps[..|steps| - 1]), steps[|steps| - 1], stop, sweeps);
    }
  }

  /**
    From a `stop` on, until somebody calls `start` or `runOnce`, no sweep begins; and once that stop
    has resolved none is in flight.
   */
  lemma StopDrains(active: bool, steps: seq<Step>, more: seq<Step>)
    requires IsRun(active, INIT, steps)
    requires IsRun(active, Apply(active, After(active, INIT, steps), CallStop), more)
    requires forall step <- more :: !step.Start? && !step.RunOnce?
    ensures var s := After(active, INIT, steps);
            var end := After(active, Apply(active, s, CallStop), more);
            && |end.sweeps| == |s.sweeps| && |s.stops| < |end.stops|
            && (end.stops[|s.stops|].Resolved? ==> forall p: nat :: !Unfinished(end, p))
  {
    var s := After(active, INIT, steps);
    var stopped := Apply(active, s, CallStop);
    RunKeepsInv(active, INIT, steps);
    StepKeepsInv(active, s, CallStop);
    StoppingPersists(active, stopped, more, |s.stops|, |s.sweeps|);
    RunKeepsInv(active, stopped, more);
  }
}
