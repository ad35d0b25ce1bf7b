/**
  The dispatcher's loop: `start`, `stop`, the timer and the reschedule of
  app/services/webhooks/dispatcher.ts.

  A loop pass is one call of `runTickAndReschedule` that got past its first line. Its tick is a
  promise; when that settles the pass continues, and only then does a `stop` that awaits the same
  promise resolve, because reactions to a promise run in the order they were registered.
 */
module DispatcherLoop {
  import opened Wrappers

  type PassId = nat
  type TimerId = nat

  datatype Phase = Ticking | Settled | Done

  datatype Stop = Awaiting(pass: PassId) | Resolved

  datatype State = State(
    running: bool, timer: Option<TimerId>, currentTick: Option<PassId>,
    armed: set<TimerId>, timersMade: nat, passes: seq<Phase>, stops: seq<Stop>)

  datatype Step =
    | Start
    | TimerFires(timer: TimerId)
    | TickSettles(pass: PassId)
    | PassContinues(pass: PassId)
    | CallStop
    | StopResolves(stop: nat)

  const INIT: State := State(false, None, None, {}, 0, [], [])

  predicate Enabled(s: State, step: Step) {
    match step
    case TimerFires(t) => t in s.armed
    case TickSettles(p) => p < |s.passes| && s.passes[p] == Ticking
    case PassContinues(p) => p < |s.passes| && s.passes[p] == Settled
    case StopResolves(j) =>
      && j < |s.stops| && s.stops[j].Awaiting?
      && s.stops[j].pass < |s.passes| && s.passes[s.stops[j].pass] == Done
    case _ => true
  }

  function NewPass(s: State): State {
    s.(passes := s.passes + [Ticking], currentTick := Some(|s.passes|))
  }

  function Apply(s: State, step: Step): State
    requires Enabled(s, step)
  {
    match step
    case Start => if s.running then s else NewPass(s.(running := true))
    case TimerFires(t) =>
      var s' := s.(armed := s.armed - {t});
      if s.running then NewPass(s') else s'
    case TickSettles(p) => s.(passes := s.passes[p := Settled])
    case PassContinues(p) =>
      var s' := s.(passes := s.passes[p := Done], currentTick := None);
      if s.running
      then s'.(timer := Some(s.timersMade), armed := s.armed + {s.timersMade}, timersMade := s.timersMade + 1)
      else s'
    case CallStop =>
      s.(running := false, timer := None,
         armed := if s.timer.Some? then s.armed - {s.timer.value} else s.armed,
         stops := s.stops + [if s.currentTick.Some? then Awaiting(s.currentTick.value) else Resolved])
    case StopResolves(j) => s.(stops := s.stops[j := Resolved])
  }

  class Loop {
    var running: bool
    var timer: Option<TimerId>
    var currentTick: Option<PassId>
    var armed: set<TimerId>
    var timersMade: nat
    var passes: seq<Phase>
    var stops: seq<Stop>

    function Abs(): State
      reads this
    {
      State(running, timer, currentTick, armed, timersMade, passes, stops)
    }

    constructor ()
      ensures Abs() == INIT
    {
      running, timer, currentTick, armed, timersMade, passes, stops := false, None, None, {}, 0, [], [];
    }

    method RunTickAndReschedule()
      modifies this
      ensures Abs() == if old(running) then NewPass(old(Abs())) else old(Abs())
    {
      if !running { return; }
      currentTick := Some(|passes|);
      passes := passes + [Ticking];
    }

    method StartLoop()
      modifies this
      ensures Abs() == Apply(old(Abs()), Start)
    {
      if running { return; }
      running := true;
      RunTickAndReschedule();
    }

    method OnTimer(t: TimerId)
      requires t in armed
      modifies this
      ensures Abs() == Apply(old(Abs()), TimerFires(t))
    {
      armed := armed - {t};
      RunTickAndReschedule();
    }

    /** The rest of a pass, once its tick has settled. */
    method Continue(p: PassId)
      requires p < |passes| && passes[p] == Settled
      modifies this
      ensures Abs() == Apply(old(Abs()), PassContinues(p))
    {
      passes := passes[p := Done];
      currentTick := None;
      if running {
        timer := Some(timersMade);
        armed := armed + {timersMade};
        timersMade := timersMade + 1;
      }
    }

    method StopLoop()
      modifies this
      ensures Abs() == Apply(old(Abs()), CallStop)
    {
      running := false;
      if timer.Some? {
        armed := armed - {timer.value};
        timer := None;
      }
      stops := stops + [if currentTick.Some? then Awaiting(currentTick.value) else Resolved];
    }
  }

  // ---------------------------------------------------------------------------------------------
  // Runs.
  // ---------------------------------------------------------------------------------------------

  ghost predicate IsRun(steps: seq<Step>)
    decreases |steps|, 0
  {
    steps == [] || (IsRun(steps[..|steps| - 1]) && Enabled(After(steps[..|steps| - 1]), steps[|steps| - 1]))
  }

  ghost function After(steps: seq<Step>): State
    requires IsRun(steps)
    decreases |steps|, 1
  {
    if steps == [] then INIT else Apply(After(steps[..|steps| - 1]), steps[|steps| - 1])
  }

  predicate Unfinished(s: State, p: PassId) { p < |s.passes| && s.passes[p] != Done }

  predicate StopPending(s: State) { exists j | 0 <= j < |s.stops| :: s.stops[j].Awaiting? }

  /** `start` is never called between a `stop` and its resolution. */
  ghost predicate StartsAfterStops(steps: seq<Step>)
    requires IsRun(steps)
  {
    steps == [] ||
    (StartsAfterStops(steps[..|steps| - 1]) && (steps[|steps| - 1].Start? ==> !StopPending(After(steps[..|steps| - 1]))))
  }

  /** `start` is only called when the loop is running already, or when no pass is unfinished. */
  ghost predicate StartsIdle(steps: seq<Step>)
    requires IsRun(steps)
  {
    steps == [] ||
    (StartsIdle(steps[..|steps| - 1]) && (steps[|steps| - 1].Start? ==> MayStart(After(steps[..|steps| - 1]))))
  }

  ghost predicate MayStart(s: State) { s.running || forall p: nat :: !Unfinished(s, p) }

  /**
    Running: either one pass is under way and no timer is armed, or all are done and one timer is.
    Stopped: no timer is armed, and a pass still under way has a `stop` awaiting it.
   */
  ghost predicate Inv(s: State) {
    && (forall t <- s.armed :: t < s.timersMade && s.timer == Some(t))
    && (s.currentTick.Some? ==> Unfinished(s, s.currentTick.value) && s.armed == {})
    && (forall p: nat | Unfinished(s, p) :: s.currentTick == Some(p))
    && (s.running && s.currentTick.None? ==> s.timer.Some? && s.armed == {s.timer.value})
    && (!s.running ==> s.armed == {})
    && (!s.running && s.currentTick.Some? ==>
          exists j | 0 <= j < |s.stops| :: s.stops[j] == Awaiting(s.currentTick.value))
  }

  lemma StepKeepsInv(s: State, step: Step)
    requires Inv(s) && Enabled(s, step) && (step.Start? ==> MayStart(s))
    ensures Inv(Apply(s, step))
  {
    var s' := Apply(s, step);
    if step.TickSettles? || step.PassContinues? { assert Unfinished(s, step.pass); }
    forall p: nat | Unfinished(s', p) ensures s'.currentTick == Some(p) {
      assert Unfinished(s, p) || p == |s.passes|;
    }
    if !s'.running && s'.currentTick.Some? {
      if step.CallStop? {
        assert s'.stops[|s.stops|] == Awaiting(s'.currentTick.value);
      } else {
        var j :| 0 <= j < |s.stops| && s.stops[j] == Awaiting(s.currentTick.value);
        assert s'.stops[j] == Awaiting(s'.currentTick.value);
      }
    }
  }

  lemma {:induction false} RunKeepsInv(steps: seq<Step>)
    requires IsRun(steps) && StartsIdle(steps)
    ensures Inv(After(steps))
  {
    if steps != [] {
      RunKeepsInv(steps[..|steps| - 1]);
      StepKeepsInv(After(steps[..|steps| - 1]), steps[|steps| - 1]);
    }
  }

  /** Two passes are unfinished at once. */
  ghost predicate Overlapping(s: State) {
    exists p: nat, q: nat :: p != q && Unfinished(s, p) && Unfinished(s, q)
  }

  ghost predicate OverlapsAt(steps: seq<Step>, n: nat) {
    n <= |steps| && IsRun(steps[..n]) && Overlapping(After(steps[..n]))
  }

  lemma {:induction false} PrefixStartsIdle(steps: seq<Step>, n: nat)
    requires IsRun(steps) && StartsIdle(steps) && n <= |steps|
    ensures IsRun(steps[..n]) && StartsIdle(steps[..n])
  {
    if n == |steps| {
      assert steps[..n] == steps;
    } else {
      PrefixStartsIdle(steps[..|steps| - 1], n);
      assert steps[..|steps| - 1][..n] == steps[..n];
    }
  }

  lemma {:induction false} SomeStartOverlaps(steps: seq<Step>) returns (n: nat)
    requires IsRun(steps) && !StartsIdle(steps)
    ensures OverlapsAt(steps, n)
  {
    var last := |steps| - 1;
    var earlier := steps[..last];
    if StartsIdle(earlier) {
      var p: nat :| Unfinished(After(earlier), p);
      var s := After(steps);
      assert Unfinished(s, p) && Unfinished(s, |After(earlier).passes|);
      n := |steps|;
      assert steps[..n] == steps;
    } else {
      n := SomeStartOverlaps(earlier);
      assert earlier[..n] == steps[..n];
    }
  }

  /** Exactly when ticks overlap, for every run: never, iff `start` only comes while running or with no pass unfinished. */
  lemma TicksNeverOverlapIff(steps: seq<Step>)
    requires IsRun(steps)
    ensures StartsIdle(steps) <==> forall n: nat :: !OverlapsAt(steps, n)
  {
    if StartsIdle(steps) {
      forall n: nat ensures !OverlapsAt(steps, n) {
        if n <= |steps| {
          PrefixStartsIdle(steps, n);
          RunKeepsInv(steps[..n]);
        }
      }
    } else {
      var n := SomeStartOverlaps(steps);
    }
  }

  /** The callers' discipline is enough: while a stopped loop has an unfinished pass, a `stop` awaits it. */
  lemma {:induction false} AwaitingStopsIsEnough(steps: seq<Step>)
    requires IsRun(steps) && StartsAfterStops(steps)
    ensures StartsIdle(steps)
  {
    if steps != [] {
      AwaitingStopsIsEnough(steps[..|steps| - 1]);
      RunKeepsInv(steps[..|steps| - 1]);
    }
  }

  /**
    Loop ticks never overlap when `start` is not called between a `stop` and its resolution; and once
    the dispatcher is stopped and every `stop` has resolved, no tick is in flight and no timer is left
    to start one.
   */
  lemma TicksNeverOverlap(steps: seq<Step>)
    requires IsRun(steps) && StartsAfterStops(steps)
    ensures forall n: nat :: !OverlapsAt(steps, n)
    ensures var s := After(steps);
            !s.running && !StopPending(s) ==> (forall p: nat :: !Unfinished(s, p)) && s.armed == {}
  {
    AwaitingStopsIsEnough(steps);
    TicksNeverOverlapIff(steps);
    RunKeepsInv(steps);
  }

  /** Stopped, every stop resolved, nothing left to run. */
  ghost predicate Quiet(s: State) {
    !s.running && !StopPending(s) && Inv(s)
  }

  lemma QuietStep(s: State, step: Step)
    requires Quiet(s) && Enabled(s, step) && !step.Start?
    ensures Quiet(Apply(s, step)) && Apply(s, step).passes == s.passes
  {
    assert s.currentTick.None?;
    assert step.TickSettles? || step.PassContinues? ==> Unfinished(s, step.pass);
    StepKeepsInv(s, step);
    var s' := Apply(s, step);
    assert forall j | 0 <= j < |s'.stops| :: j < |s.stops| ==> s'.stops[j] == s.stops[j];
  }

  /** From resolved stops on, nothing but `start` begins another pass. */
  lemma {:induction false} QuietUntilStart(steps: seq<Step>, more: seq<Step>)
    requires IsRun(steps) && StartsIdle(steps) && !After(steps).running && !StopPending(After(steps))
    requires IsRun(steps + more) && forall step <- more :: !step.Start?
    ensures Quiet(After(steps + more)) && After(steps + more).passes == After(steps).passes
    decreases |more|
  {
    if more == [] {
      assert steps + more == steps;
      RunKeepsInv(steps);
    } else {
      var fewer := more[..|more| - 1];
      assert (steps + more)[..|steps + more| - 1] == steps + fewer;
      QuietUntilStart(steps, fewer);
      QuietStep(After(steps + fewer), more[|more| - 1]);
    }
  }

  /** A stopped loop with an unfinished pass still has a `stop` awaiting it, and a `start` then overlaps two passes. */
  lemma EarlyStartOverlaps(steps: seq<Step>, p: PassId)
    requires IsRun(steps) && StartsIdle(steps)
    requires !After(steps).running && Unfinished(After(steps), p)
    ensures StopPending(After(steps))
    ensures var s := Apply(After(steps), Start);
            Unfinished(s, p) && Unfinished(s, |After(steps).passes|) && p != |After(steps).passes|
  {
    RunKeepsInv(steps);
  }
}
