/**
  Starvation freedom of the dispatcher's polling: a due row waits for at most as many ticks as it
  takes to claim the rows ordered no later than it. The argument needs no fairness of its own:
  a claimed row leaves the rows ahead for good, because a retry is scheduled after the clock of the
  attempt, and new rows are enqueued at the clock, which is past the waiting row's due time.
 */
module Starvation {
  import opened Wrappers
  import opened Deliveries
  import opened DispatcherRuns

  function TimeOf(step: Step): Option<int> {
    match step
    case Enqueue(_, _, _, _, at) => Some(at)
    case StartTick(_, at) => Some(at)
    case Post(_, _, at) => Some(at)
    case Persist(_, at) => Some(at)
    case _ => None
  }

  /** The clock is past `due` throughout, and no attempt throws or is cut off by a crash. */
  ghost predicate Undisturbed(steps: seq<Step>, due: int) {
    forall step <- steps :: !step.Throw? && !step.Crash? && (TimeOf(step).Some? ==> TimeOf(step).value > due)
  }

  predicate Claims(step: Step, x: DeliveryId) { step.StartTick? && x in step.claimed }

  predicate Removes(step: Step, x: DeliveryId) { step.Remove? && x in step.ids }

  function Ticks(steps: seq<Step>): nat {
    if steps == [] then 0
    else Ticks(steps[..|steps| - 1]) + if steps[|steps| - 1].StartTick? then 1 else 0
  }

  ghost predicate Waiting(s: State, x: DeliveryId, due: int) {
    x in s.rows && s.rows[x].status == Pending && s.rows[x].nextAttemptAt == due && !InFlight(s, x)
  }

  /** The other pending rows, not under way, ordered no later than a row due at `due`. */
  ghost function Ahead(s: State, x: DeliveryId, due: int): set<DeliveryId> {
    set id | id in s.rows && id != x && s.rows[id].status == Pending && s.rows[id].nextAttemptAt <= due && !InFlight(s, id)
  }

  /** Every retry decided so far lands after `due`. */
  ghost predicate RetriesLandLater(s: State, due: int) {
    forall t <- s.tasks :: IsDecided(s, t) && s.tasks[t].progress.outcome.kind.Retry? ==>
      s.tasks[t].progress.outcome.kind.nextAttemptAt > due
  }

  lemma StepKeepsWaiting(cfg: Config, s: State, step: Step, x: DeliveryId, due: int)
    requires ValidConfig(cfg) && Enabled(cfg, s, step) && Waiting(s, x, due) && x in s.ledger
    requires !step.Throw? && !step.Crash? && !Claims(step, x) && !Removes(step, x)
    ensures Waiting(Apply(cfg, s, step), x, due) && x in Apply(cfg, s, step).ledger
  {
    var s' := Apply(cfg, s, step);
    forall t <- s'.tasks ensures t.1 != x {
      assert t in s.tasks || (step.StartTick? && t.1 in step.claimed);
    }
  }

  lemma StepKeepsRetriesLate(cfg: Config, s: State, step: Step, due: int)
    requires ValidConfig(cfg) && Enabled(cfg, s, step) && RetriesLandLater(s, due)
    requires !step.Throw? && !step.Crash? && (TimeOf(step).Some? ==> TimeOf(step).value > due)
    ensures RetriesLandLater(Apply(cfg, s, step), due)
  {
  }

  /** No step but a claim changes who is under way, except that a persisted row stops being so. */
  lemma StepKeepsInFlight(cfg: Config, s: State, step: Step, id: DeliveryId)
    requires ValidConfig(cfg) && Enabled(cfg, s, step)
    requires !step.Throw? && !step.Crash? && InFlight(s, id)
    ensures InFlight(Apply(cfg, s, step), id) || (step.Persist? && step.task.1 == id)
  {
  }

  lemma ClaimPutsInFlight(cfg: Config, s: State, step: Step, id: DeliveryId)
    requires ValidConfig(cfg) && Enabled(cfg, s, step)
    ensures Claims(step, id) ==> InFlight(Apply(cfg, s, step), id)
  {
  }

  /** Nothing ever joins the rows ahead. */
  lemma AheadOnlyShrinks(cfg: Config, s: State, step: Step, x: DeliveryId, due: int, id: DeliveryId)
    requires ValidConfig(cfg) && Enabled(cfg, s, step) && RetriesLandLater(s, due)
    requires !step.Throw? && !step.Crash? && (TimeOf(step).Some? ==> TimeOf(step).value > due)
    requires id in Ahead(Apply(cfg, s, step), x, due)
    ensures id in Ahead(s, x, due)
    ensures !Claims(step, id)
  {
    if InFlight(s, id) { StepKeepsInFlight(cfg, s, step, id); }
    ClaimPutsInFlight(cfg, s, step, id);
  }

  lemma {:induction false} DistinctCount(claimed: seq<DeliveryId>)
    requires forall i, j | 0 <= i < j < |claimed| :: claimed[i] != claimed[j]
    ensures |set id | id in claimed| == |claimed|
  {
    if claimed != [] {
      var n := |claimed| - 1;
      DistinctCount(claimed[..n]);
      assert claimed == claimed[..n] + [claimed[n]];
      assert (set id | id in claimed) == (set id | id in claimed[..n]) + {claimed[n]};
    }
  }

  /** A tick that leaves a due row waiting takes a full batch from the rows ahead of it. */
  lemma FullBatchAhead(cfg: Config, s: State, step: Step, x: DeliveryId, due: int)
    requires ValidConfig(cfg) && Enabled(cfg, s, step) && Waiting(s, x, due) && RetriesLandLater(s, due)
    requires step.StartTick? && step.at > due && s.tasks == map[] && !Claims(step, x)
    ensures |Ahead(Apply(cfg, s, step), x, due)| + cfg.limit <= |Ahead(s, x, due)|
  {
    var batch := set id | id in step.claimed;
    var before, after := Ahead(s, x, due), Ahead(Apply(cfg, s, step), x, due);
    assert Due(s.rows[x], step.at);
    DistinctCount(step.claimed);
    assert batch <= before by {
      forall id | id in batch ensures id in before {
        assert !InFlight(s, id) && Due(s.rows[id], step.at);
      }
    }
    forall id | id in after ensures id in before - batch {
      AheadOnlyShrinks(cfg, s, step, x, due, id);
    }
    assert after <= before - batch;
    SubsetCount(after, before - batch);
  }

  lemma {:induction false} SubsetCount(a: set<DeliveryId>, b: set<DeliveryId>)
    requires a <= b
    ensures |a| <= |b|
  {
    assert b == a + (b - a);
  }

  lemma AheadCountFalls(cfg: Config, s: State, step: Step, x: DeliveryId, due: int)
    requires ValidConfig(cfg) && Enabled(cfg, s, step) && Waiting(s, x, due) && RetriesLandLater(s, due)
    requires !step.Throw? && !step.Crash? && (TimeOf(step).Some? ==> TimeOf(step).value > due)
    requires (step.StartTick? ==> s.tasks == map[]) && !Claims(step, x)
    ensures |Ahead(Apply(cfg, s, step), x, due)| + (if step.StartTick? then cfg.limit else 0) <= |Ahead(s, x, due)|
  {
    if step.StartTick? {
      FullBatchAhead(cfg, s, step, x, due);
    } else {
      forall id | id in Ahead(Apply(cfg, s, step), x, due) ensures id in Ahead(s, x, due) {
        AheadOnlyShrinks(cfg, s, step, x, due, id);
      }
      SubsetCount(Ahead(Apply(cfg, s, step), x, due), Ahead(s, x, due));
    }
  }

  /** While the row waits, every tick pays a full batch out of the rows that were ahead at the start. */
  lemma {:induction false} WaitingIsPaidFor(cfg: Config, s0: State, steps: seq<Step>, x: DeliveryId, due: int)
    requires ValidConfig(cfg) && IsRun(cfg, s0, steps) && s0.tasks == map[]
    requires Waiting(s0, x, due) && x in s0.ledger && Undisturbed(steps, due)
    requires forall step <- steps :: !Claims(step, x) && !Removes(step, x)
    ensures var s := After(cfg, s0, steps);
            && Waiting(s, x, due) && x in s.ledger && RetriesLandLater(s, due) && OnlyCurrentTick(s)
            && |Ahead(s, x, due)| + Ticks(steps) * cfg.limit <= |Ahead(s0, x, due)|
  {
    if steps != [] {
      var earlier, step := steps[..|steps| - 1], steps[|steps| - 1];
      WaitingIsPaidFor(cfg, s0, earlier, x, due);
      var before := After(cfg, s0, earlier);
      StepKeepsOnlyCurrentTick(cfg, before, step);
      StepKeepsWaiting(cfg, before, step, x, due);
      StepKeepsRetriesLate(cfg, before, step, due);
      AheadCountFalls(cfg, before, step, x, due);
      assert (Ticks(earlier) + 1) * cfg.limit == Ticks(earlier) * cfg.limit + cfg.limit;
    }
  }

  lemma QuotientExceeds(r: nat, k: nat, n: nat)
    requires k > 0 && n >= r / k + 1
    ensures n * k > r
  {
    assert n * k >= (r / k + 1) * k;
  }

  /**
    Starvation freedom: from an idle dispatcher, with r other pending rows ordered no later than
    row x and the clock past x's due time, x is claimed within floor(r / limit) + 1 ticks, unless
    its row is deleted first.
   */
  lemma DueRowIsClaimed(cfg: Config, s0: State, steps: seq<Step>, x: DeliveryId, due: int)
    requires ValidConfig(cfg) && IsRun(cfg, s0, steps) && s0.tasks == map[]
    requires Waiting(s0, x, due) && x in s0.ledger && Undisturbed(steps, due)
    requires Ticks(steps) >= |Ahead(s0, x, due)| / cfg.limit + 1
    ensures exists step :: step in steps && (Claims(step, x) || Removes(step, x))
  {
    if forall step <- steps :: !Claims(step, x) && !Removes(step, x) {
      WaitingIsPaidFor(cfg, s0, steps, x, due);
      QuotientExceeds(|Ahead(s0, x, due)|, cfg.limit, Ticks(steps));
    }
  }
}
