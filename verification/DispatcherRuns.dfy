/**
  Every run of the outbound pipeline: receivers that enqueue, cascades that delete rows, crashes,
  and one dispatcher whose loop ticks (app/services/webhooks/dispatcher.ts) do not overlap.

  Within a tick the attempts interleave freely, which covers any chunking. A POST, its persisted
  outcome and a crash are separate steps. When one attempt throws, the tick is abandoned but its
  sibling attempts run on, as `Promise.all` lets them; a later tick may then start over them.
 */
module DispatcherRuns {
  import opened Wrappers
  import opened Deliveries

  datatype Config = Config(maxRetries: nat, limit: nat)

  predicate ValidConfig(cfg: Config) { ValidMaxRetries(cfg.maxRetries) && cfg.limit > 0 }

  /** Where one attempt stands: not started, under way up to its POST, or decided with or without a POST. */
  datatype Progress = Queued | Begun | Decided(outcome: Outcome, posted: bool)

  /** The row as claimed, and the attempt's progress. */
  datatype Task = Task(snapshot: Delivery, progress: Progress)

  /** The attempt of one tick on one delivery. */
  type TaskId = (nat, DeliveryId)

  datatype State = State(
    rows: map<DeliveryId, Delivery>,
    tasks: map<TaskId, Task>,
    tick: nat,
    running: bool,
    ledger: map<DeliveryId, Count>,    // for every delivery ever enqueued
    closed: set<DeliveryId>)           // deliveries persisted as delivered or failed

  /** POSTs made, and POSTs whose outcome was never persisted because a crash or throw came first. */
  datatype Count = Count(posts: nat, lost: nat)

  datatype Step =
    | Enqueue(id: DeliveryId, eventId: EventId, tenantId: TenantId, callbackUrl: string, at: int)
    | Remove(ids: set<DeliveryId>)
    | StartTick(claimed: seq<DeliveryId>, at: int)
    | Begin(task: TaskId)
    | Abandon(task: TaskId, body: string)
    | Post(task: TaskId, reply: Reply, at: int)
    | Persist(task: TaskId, at: int)
    | Finish
    | Throw(task: TaskId)
    | Crash

  const INIT: State := State(map[], map[], 0, false, map[], {})

  predicate At(s: State, t: TaskId, p: Progress) { t in s.tasks && s.tasks[t].progress == p }

  predicate IsDecided(s: State, t: TaskId) { t in s.tasks && s.tasks[t].progress.Decided? }

  predicate HasPosted(s: State, t: TaskId) { IsDecided(s, t) && s.tasks[t].progress.posted }

  ghost predicate Enabled(cfg: Config, s: State, step: Step) {
    match step
    case Enqueue(id, _, _, _, _) => id !in s.ledger
    case Remove(_) => true
    case StartTick(claimed, at) => !s.running && IsClaim(s.rows, at, cfg.limit, claimed)
    case Begin(t) => s.running && t.0 == s.tick && At(s, t, Queued)
    case Abandon(t, _) => At(s, t, Begun)
    case Post(t, _, _) => At(s, t, Begun)
    case Persist(t, _) => IsDecided(s, t)
    case Finish => s.running && forall t <- s.tasks :: t.0 != s.tick
    case Throw(t) => t in s.tasks && s.tasks[t].progress != Queued
    case Crash => true
  }

  function WithProgress(s: State, t: TaskId, p: Progress): State
    requires t in s.tasks
  {
    s.(tasks := s.tasks[t := s.tasks[t].(progress := p)])
  }

  function Counted(ledger: map<DeliveryId, Count>, id: DeliveryId, posts: nat, lost: nat): map<DeliveryId, Count> {
    if id in ledger then ledger[id := Count(ledger[id].posts + posts, ledger[id].lost + lost)] else ledger
  }

  function ClaimedTasks(rows: map<DeliveryId, Delivery>, tick: nat, claimed: seq<DeliveryId>): (tasks: map<TaskId, Task>)
    requires forall id <- claimed :: id in rows
    ensures forall id <- claimed :: (tick, id) in tasks && tasks[(tick, id)] == Task(rows[id], Queued)
    ensures forall t <- tasks :: t.0 == tick && t.1 in claimed
  {
    map id | id in claimed :: (tick, id) := Task(rows[id], Queued)
  }

  ghost function Apply(cfg: Config, s: State, step: Step): State
    requires ValidConfig(cfg) && Enabled(cfg, s, step)
  {
    match step
    case Enqueue(id, event, tenant, url, at) =>
      s.(rows := s.rows[id := NewDelivery(event, tenant, url, at)],
         ledger := s.ledger[id := Count(0, 0)])
    case Remove(ids) => s.(rows := s.rows - ids)
    case StartTick(claimed, at) =>
      s.(tick := s.tick + 1, running := true,
         tasks := s.tasks + ClaimedTasks(s.rows, s.tick + 1, claimed))
    case Begin(t) => WithProgress(s, t, Begun)
    case Abandon(t, body) => WithProgress(s, t, Decided(Outcome(GaveUp, None, Some(body)), false))
    case Post(t, reply, at) =>
      WithProgress(s, t, Decided(Decide(s.tasks[t].snapshot.attemptCount, cfg.maxRetries, reply, at), true))
        .(ledger := Counted(s.ledger, t.1, 1, 0))
    case Persist(t, at) =>
      var outcome := s.tasks[t].progress.outcome;
      if t.1 in s.rows
      then s.(rows := s.rows[t.1 := Updated(s.rows[t.1], outcome, at)], tasks := s.tasks - {t},
              closed := if outcome.kind.Retry? then s.closed else s.closed + {t.1})
      else s.(tasks := s.tasks - {t})
    case Finish => s.(running := false)
    case Throw(t) =>
      var ends := t.0 == s.tick;
      s.(running := s.running && !ends,
         ledger := Counted(s.ledger, t.1, 0, if HasPosted(s, t) then 1 else 0),
         tasks := map u | u in s.tasks && u != t && !(ends && u.0 == s.tick && s.tasks[u].progress == Queued) :: s.tasks[u])
    case Crash =>
      s.(running := false, tasks := map[],
         ledger := map id | id in s.ledger ::
           s.ledger[id].(lost := s.ledger[id].lost + if exists t <- s.tasks :: t.1 == id && HasPosted(s, t) then 1 else 0))
  }

  // ---------------------------------------------------------------------------------------------
  // Runs.
  // ---------------------------------------------------------------------------------------------

  ghost predicate IsRun(cfg: Config, s0: State, steps: seq<Step>)
    requires ValidConfig(cfg)
    decreases |steps|, 0
  {
    steps == [] ||
    (IsRun(cfg, s0, steps[..|steps| - 1]) && Enabled(cfg, After(cfg, s0, steps[..|steps| - 1]), steps[|steps| - 1]))
  }

  ghost function After(cfg: Config, s0: State, steps: seq<Step>): State
    requires ValidConfig(cfg) && IsRun(cfg, s0, steps)
    decreases |steps|, 1
  {
    if steps == [] then s0
    else Apply(cfg, After(cfg, s0, steps[..|steps| - 1]), steps[|steps| - 1])
  }

  ghost predicate InFlight(s: State, id: DeliveryId) { exists t <- s.tasks :: t.1 == id }

  /** A tick claims no row that an attempt of an abandoned tick is still working on. */
  ghost predicate ClaimsNothingInFlight(s: State, step: Step) {
    step.StartTick? ==> forall id <- step.claimed :: !InFlight(s, id)
  }

  ghost predicate NoDoubleClaims(cfg: Config, s0: State, steps: seq<Step>)
    requires ValidConfig(cfg) && IsRun(cfg, s0, steps)
  {
    steps == [] ||
    (&& NoDoubleClaims(cfg, s0, steps[..|steps| - 1])
     && ClaimsNothingInFlight(After(cfg, s0, steps[..|steps| - 1]), steps[|steps| - 1]))
  }

  // ---------------------------------------------------------------------------------------------
  // Safety.
  // ---------------------------------------------------------------------------------------------

  /** An attempt in flight: its row, if still there, is pending and as claimed; its POSTs are accounted for. */
  ghost predicate TaskOk(cfg: Config, s: State, t: TaskId)
    requires t in s.tasks
  {
    var task := s.tasks[t];
    && t.1 in s.ledger && t.1 !in s.closed
    && task.snapshot.status == Pending && task.snapshot.attemptCount <= cfg.maxRetries
    && (t.1 in s.rows ==> s.rows[t.1].status == Pending && s.rows[t.1].attemptCount == task.snapshot.attemptCount)
    && (IsDecided(s, t) && task.progress.outcome.kind.Retry? ==>
          task.progress.posted && task.snapshot.attemptCount < cfg.maxRetries)
    && s.ledger[t.1].posts == task.snapshot.attemptCount + s.ledger[t.1].lost + if HasPosted(s, t) then 1 else 0
  }

  /** With no attempt under way a pending row's count is exactly its POSTs that were not lost. */
  ghost predicate RowAccounted(cfg: Config, s: State, id: DeliveryId)
    requires id in s.rows
  {
    && id in s.ledger
    && RowOk(s.rows[id], cfg.maxRetries)
    && (id in s.closed <==> s.rows[id].status != Pending)
    && (!InFlight(s, id) ==>
          && s.ledger[id].posts <= s.rows[id].attemptCount + s.ledger[id].lost
          && (s.rows[id].status == Pending ==> s.ledger[id].posts == s.rows[id].attemptCount + s.ledger[id].lost))
  }

  ghost predicate OneTaskPerDelivery(s: State) {
    forall t <- s.tasks, u <- s.tasks :: t.1 == u.1 ==> t == u
  }

  ghost predicate PostsBounded(cfg: Config, s: State) {
    forall id <- s.ledger :: s.ledger[id].posts <= 1 + cfg.maxRetries + s.ledger[id].lost
  }

  ghost predicate Inv(cfg: Config, s: State) {
    && (forall id <- s.closed :: id in s.ledger)
    && OneTaskPerDelivery(s)
    && (forall t <- s.tasks :: TaskOk(cfg, s, t))
    && (forall id <- s.rows :: RowAccounted(cfg, s, id))
    && PostsBounded(cfg, s)
  }

  lemma StepKeepsOneTask(cfg: Config, s: State, step: Step)
    requires ValidConfig(cfg) && OneTaskPerDelivery(s) && Enabled(cfg, s, step) && ClaimsNothingInFlight(s, step)
    ensures OneTaskPerDelivery(Apply(cfg, s, step))
  {
  }

  /** An attempt is untouched by a step that leaves its task, its row and its count alone. */
  lemma TaskFrame(cfg: Config, s: State, s': State, t: TaskId)
    requires t in s.tasks && TaskOk(cfg, s, t) && t in s'.tasks && s'.tasks[t] == s.tasks[t]
    requires t.1 in s'.ledger && s'.ledger[t.1] == s.ledger[t.1] && t.1 !in s'.closed
    requires t.1 in s'.rows ==> t.1 in s.rows && s'.rows[t.1] == s.rows[t.1]
    ensures TaskOk(cfg, s', t)
  {
  }

  /** A step that belongs to one attempt keeps every attempt in order. */
  lemma TaskStepKeepsTask(cfg: Config, s: State, step: Step, t: TaskId)
    requires ValidConfig(cfg) && Enabled(cfg, s, step) && OneTaskPerDelivery(s)
    requires step.Begin? || step.Abandon? || step.Post? || step.Persist? || step.Throw?
    requires t in s.tasks && TaskOk(cfg, s, t) && t in Apply(cfg, s, step).tasks
    ensures TaskOk(cfg, Apply(cfg, s, step), t)
  {
    if t != step.task {
      assert t.1 != step.task.1;
      TaskFrame(cfg, s, Apply(cfg, s, step), t);
    }
  }

  lemma OtherStepKeepsTask(cfg: Config, s: State, step: Step, t: TaskId)
    requires ValidConfig(cfg) && Enabled(cfg, s, step)
    requires step.Enqueue? || step.Remove? || step.Finish?
    requires t in s.tasks && TaskOk(cfg, s, t)
    ensures TaskOk(cfg, Apply(cfg, s, step), t)
  {
  }

  lemma StartKeepsTask(cfg: Config, s: State, step: Step, t: TaskId)
    requires ValidConfig(cfg) && Enabled(cfg, s, step) && step.StartTick? && ClaimsNothingInFlight(s, step)
    requires t in s.tasks ==> TaskOk(cfg, s, t)
    requires t.1 in s.rows ==> RowAccounted(cfg, s, t.1)
    requires t in Apply(cfg, s, step).tasks
    ensures TaskOk(cfg, Apply(cfg, s, step), t)
  {
    if t in s.tasks {
      assert InFlight(s, t.1);
      TaskFrame(cfg, s, Apply(cfg, s, step), t);
    } else {
      assert t == (s.tick + 1, t.1) && Due(s.rows[t.1], step.at);
    }
  }

  lemma StepKeepsTasks(cfg: Config, s: State, step: Step)
    requires ValidConfig(cfg) && Inv(cfg, s) && Enabled(cfg, s, step) && ClaimsNothingInFlight(s, step)
    ensures forall t <- Apply(cfg, s, step).tasks :: TaskOk(cfg, Apply(cfg, s, step), t)
  {
    forall t <- Apply(cfg, s, step).tasks ensures TaskOk(cfg, Apply(cfg, s, step), t) {
      if step.StartTick? {
        StartKeepsTask(cfg, s, step, t);
      } else if step.Enqueue? || step.Remove? || step.Finish? {
        OtherStepKeepsTask(cfg, s, step, t);
      } else if !step.Crash? {
        TaskStepKeepsTask(cfg, s, step, t);
      }
    }
  }

  lemma QuietStepKeepsRow(cfg: Config, s: State, step: Step, id: DeliveryId)
    requires ValidConfig(cfg) && Enabled(cfg, s, step)
    requires step.Enqueue? || step.Remove? || step.Finish? || step.StartTick? || step.Begin? || step.Abandon?
    requires id in s.rows ==> RowAccounted(cfg, s, id)
    requires id in Apply(cfg, s, step).rows && forall c <- s.closed :: c in s.ledger
    ensures RowAccounted(cfg, Apply(cfg, s, step), id)
  {
  }

  lemma PostKeepsRow(cfg: Config, s: State, step: Step, id: DeliveryId)
    requires ValidConfig(cfg) && Enabled(cfg, s, step) && step.Post?
    requires id in s.rows && RowAccounted(cfg, s, id)
    ensures RowAccounted(cfg, Apply(cfg, s, step), id)
  {
  }

  lemma PersistKeepsRow(cfg: Config, s: State, step: Step, id: DeliveryId)
    requires ValidConfig(cfg) && Enabled(cfg, s, step) && step.Persist?
    requires TaskOk(cfg, s, step.task)
    requires id in s.rows && RowAccounted(cfg, s, id)
    ensures RowAccounted(cfg, Apply(cfg, s, step), id)
  {
  }

  lemma ThrowKeepsRow(cfg: Config, s: State, step: Step, id: DeliveryId)
    requires ValidConfig(cfg) && Enabled(cfg, s, step) && step.Throw? && OneTaskPerDelivery(s)
    requires forall t <- s.tasks :: TaskOk(cfg, s, t)
    requires id in s.rows && RowAccounted(cfg, s, id)
    ensures RowAccounted(cfg, Apply(cfg, s, step), id)
  {
  }

  lemma CrashKeepsRow(cfg: Config, s: State, id: DeliveryId)
    requires ValidConfig(cfg)
    requires forall t <- s.tasks :: TaskOk(cfg, s, t)
    requires id in s.rows && RowAccounted(cfg, s, id)
    ensures RowAccounted(cfg, Apply(cfg, s, Crash), id)
  {
  }

  lemma StepKeepsRows(cfg: Config, s: State, step: Step)
    requires ValidConfig(cfg) && Inv(cfg, s) && Enabled(cfg, s, step)
    ensures forall id <- Apply(cfg, s, step).rows :: RowAccounted(cfg, Apply(cfg, s, step), id)
  {
    forall id <- Apply(cfg, s, step).rows ensures RowAccounted(cfg, Apply(cfg, s, step), id) {
      match step
      case Post(_, _, _) => PostKeepsRow(cfg, s, step, id);
      case Persist(_, _) => PersistKeepsRow(cfg, s, step, id);
      case Throw(_) => ThrowKeepsRow(cfg, s, step, id);
      case Crash => CrashKeepsRow(cfg, s, id);
      case _ => QuietStepKeepsRow(cfg, s, step, id);
    }
  }

  lemma StepKeepsBound(cfg: Config, s: State, step: Step)
    requires ValidConfig(cfg) && Enabled(cfg, s, step) && PostsBounded(cfg, s)
    requires forall id <- s.closed :: id in s.ledger
    requires step.Post? || step.Persist? ==> TaskOk(cfg, s, step.task)
    ensures PostsBounded(cfg, Apply(cfg, s, step))
    ensures forall id <- Apply(cfg, s, step).closed :: id in Apply(cfg, s, step).ledger
  {
  }

  lemma {:induction false} RunKeepsInv(cfg: Config, steps: seq<Step>)
    requires ValidConfig(cfg) && IsRun(cfg, INIT, steps) && NoDoubleClaims(cfg, INIT, steps)
    ensures Inv(cfg, After(cfg, INIT, steps))
  {
    if steps != [] {
      var before, step := After(cfg, INIT, steps[..|steps| - 1]), steps[|steps| - 1];
      RunKeepsInv(cfg, steps[..|steps| - 1]);
      StepKeepsOneTask(cfg, before, step);
      StepKeepsTasks(cfg, before, step);
      StepKeepsRows(cfg, before, step);
      StepKeepsBound(cfg, before, step);
    }
  }

  function Interruptions(steps: seq<Step>): nat {
    if steps == [] then 0
    else Interruptions(steps[..|steps| - 1]) + if steps[|steps| - 1].Crash? || steps[|steps| - 1].Throw? then 1 else 0
  }

  lemma LossIsInterruption(cfg: Config, s: State, step: Step, id: DeliveryId)
    requires ValidConfig(cfg) && Enabled(cfg, s, step) && id in Apply(cfg, s, step).ledger
    ensures if id in s.ledger
            then Apply(cfg, s, step).ledger[id].lost <= s.ledger[id].lost + if step.Crash? || step.Throw? then 1 else 0
            else Apply(cfg, s, step).ledger[id].lost == 0
  {
  }

  lemma {:induction false} LossesAreInterruptions(cfg: Config, steps: seq<Step>, id: DeliveryId)
    requires ValidConfig(cfg) && IsRun(cfg, INIT, steps)
    requires id in After(cfg, INIT, steps).ledger
    ensures After(cfg, INIT, steps).ledger[id].lost <= Interruptions(steps)
  {
    if steps != [] {
      var before, step := After(cfg, INIT, steps[..|steps| - 1]), steps[|steps| - 1];
      LossIsInterruption(cfg, before, step, id);
      if id in before.ledger { LossesAreInterruptions(cfg, steps[..|steps| - 1], id); }
    }
  }

  /**
    Safety of the pipeline: in every run in which no tick claims a row that is still being worked on,
    a delivery is POSTed at most 1 + maxRetries times plus once per POST whose outcome a crash or
    throw lost, hence at most once more per such interruption; and every persisted row keeps its
    status, its timestamps and its attempt count consistent.
   */
  lemma PostsAreBounded(cfg: Config, steps: seq<Step>, id: DeliveryId)
    requires ValidConfig(cfg) && IsRun(cfg, INIT, steps) && NoDoubleClaims(cfg, INIT, steps)
    requires id in After(cfg, INIT, steps).ledger
    ensures var s := After(cfg, INIT, steps);
            && s.ledger[id].posts <= 1 + cfg.maxRetries + s.ledger[id].lost
            && s.ledger[id].lost <= Interruptions(steps)
            && (id in s.rows ==>
                  && (s.rows[id].status == Pending ==> s.rows[id].attemptCount <= cfg.maxRetries)
                  && (s.rows[id].deliveredAt.Some? <==> s.rows[id].status == Delivered)
                  && (s.rows[id].failedAt.Some? <==> s.rows[id].status == Failed)
                  && RowOk(s.rows[id], cfg.maxRetries))
  {
    RunKeepsInv(cfg, steps);
    LossesAreInterruptions(cfg, steps, id);
    assert id in After(cfg, INIT, steps).rows ==> RowAccounted(cfg, After(cfg, INIT, steps), id);
  }

  /** The delivery was not persisted as delivered or failed, and its row, if still there, is pending and as claimed. */
  ghost predicate ProperPost(s: State, post: Step)
    requires post.Post? && post.task in s.tasks
  {
    && post.task.1 !in s.closed
    && (post.task.1 in s.rows ==>
          s.rows[post.task.1].status == Pending
          && s.rows[post.task.1].attemptCount == s.tasks[post.task].snapshot.attemptCount)
  }

  /** No POST follows a persisted delivered or failed, not even once the row is gone. */
  lemma NoPostAfterClosed(cfg: Config, steps: seq<Step>, post: Step)
    requires ValidConfig(cfg) && IsRun(cfg, INIT, steps) && NoDoubleClaims(cfg, INIT, steps)
    requires post.Post? && Enabled(cfg, After(cfg, INIT, steps), post)
    ensures ProperPost(After(cfg, INIT, steps), post)
  {
    RunKeepsInv(cfg, steps);
    assert TaskOk(cfg, After(cfg, INIT, steps), post.task);
  }

  /** Only the tick in progress has attempts. */
  ghost predicate OnlyCurrentTick(s: State) {
    forall t <- s.tasks :: s.running && t.0 == s.tick
  }

  lemma StepKeepsOnlyCurrentTick(cfg: Config, s: State, step: Step)
    requires ValidConfig(cfg) && Enabled(cfg, s, step) && OnlyCurrentTick(s) && !step.Throw?
    ensures OnlyCurrentTick(Apply(cfg, s, step))
    ensures step.StartTick? ==> s.tasks == map[]
  {
  }

  /** While nothing throws, no tick claims a row twice. */
  lemma {:induction false} NoThrowNoDoubleClaims(cfg: Config, steps: seq<Step>)
    requires ValidConfig(cfg) && IsRun(cfg, INIT, steps) && forall step <- steps :: !step.Throw?
    ensures NoDoubleClaims(cfg, INIT, steps) && OnlyCurrentTick(After(cfg, INIT, steps))
  {
    if steps != [] {
      NoThrowNoDoubleClaims(cfg, steps[..|steps| - 1]);
      StepKeepsOnlyCurrentTick(cfg, After(cfg, INIT, steps[..|steps| - 1]), steps[|steps| - 1]);
    }
  }

  // ---------------------------------------------------------------------------------------------
  // The condition is exact: a tick that claims a row still being worked on can always POST out of turn.
  // ---------------------------------------------------------------------------------------------

  /** Attempts belong to ticks so far, and only the tick in progress has attempts yet to start. */
  ghost predicate TasksOfPastTicks(s: State) {
    forall t <- s.tasks :: t.0 <= s.tick && (s.tasks[t].progress == Queued ==> s.running && t.0 == s.tick)
  }

  lemma StepKeepsPastTicks(cfg: Config, s: State, step: Step)
    requires ValidConfig(cfg) && Enabled(cfg, s, step) && TasksOfPastTicks(s)
    ensures TasksOfPastTicks(Apply(cfg, s, step))
  {
  }

  lemma {:induction false} RunKeepsPastTicks(cfg: Config, steps: seq<Step>)
    requires ValidConfig(cfg) && IsRun(cfg, INIT, steps)
    ensures TasksOfPastTicks(After(cfg, INIT, steps))
  {
    if steps != [] {
      RunKeepsPastTicks(cfg, steps[..|steps| - 1]);
      StepKeepsPastTicks(cfg, After(cfg, INIT, steps[..|steps| - 1]), steps[|steps| - 1]);
    }
  }

  /** An attempt that will persist something other than a retry, or has yet to decide. */
  predicate MayClose(p: Progress) { p.Decided? ==> !p.outcome.kind.Retry? }

  predicate MayPost(p: Progress) { p.Decided? ==> p.posted }

  lemma Extend(cfg: Config, s0: State, steps: seq<Step>, step: Step) returns (longer: seq<Step>)
    requires ValidConfig(cfg) && IsRun(cfg, s0, steps) && Enabled(cfg, After(cfg, s0, steps), step)
    ensures longer == steps + [step] && IsRun(cfg, s0, longer)
    ensures After(cfg, s0, longer) == Apply(cfg, After(cfg, s0, steps), step)
  {
    longer := steps + [step];
    assert longer[..|longer| - 1] == steps;
  }

  const ROW: Delivery := NewDelivery("e", "t", "u", 0)
  const ROWS: map<DeliveryId, Delivery> := map["a" := ROW, "b" := ROW]
  const UNPOSTED: map<DeliveryId, Count> := map["a" := Count(0, 0), "b" := Count(0, 0)]
  const NO_RETRIES: Config := Config(0, 2)

  lemma EnqueueBoth()
    ensures var s := Apply(NO_RETRIES, INIT, Enqueue("a", "e", "t", "u", 0));
            && Enabled(NO_RETRIES, s, Enqueue("b", "e", "t", "u", 0))
            && Apply(NO_RETRIES, s, Enqueue("b", "e", "t", "u", 0)) == State(ROWS, map[], 0, false, UNPOSTED, {})
  {
  }

  lemma ClaimBoth(s: State)
    requires s.rows == ROWS && !s.running
    ensures Enabled(NO_RETRIES, s, StartTick(["a", "b"], 0))
    ensures ClaimedTasks(ROWS, s.tick + 1, ["a", "b"])
         == map[(s.tick + 1, "a") := Task(ROW, Queued), (s.tick + 1, "b") := Task(ROW, Queued)]
  {
    var c := ["a", "b"];
    assert c[0] == "a" && c[1] == "b";
  }

  lemma BothBegin()
    ensures var s := State(ROWS, map[(1, "a") := Task(ROW, Queued), (1, "b") := Task(ROW, Queued)], 1, true, UNPOSTED, {});
            var s' := WithProgress(s, (1, "a"), Begun);
            WithProgress(s', (1, "b"), Begun).tasks == map[(1, "a") := Task(ROW, Begun), (1, "b") := Task(ROW, Begun)]
  {
  }

  lemma SecondThrows()
    ensures var s := State(ROWS, map[(1, "a") := Task(ROW, Begun), (1, "b") := Task(ROW, Begun)], 1, true, UNPOSTED, {});
            && Enabled(NO_RETRIES, s, Throw((1, "b")))
            && Apply(NO_RETRIES, s, Throw((1, "b")))
               == State(ROWS, map[(1, "a") := Task(ROW, Begun)], 1, false, UNPOSTED, {})
  {
  }

  lemma ExtendSafely(cfg: Config, steps: seq<Step>, step: Step) returns (longer: seq<Step>)
    requires ValidConfig(cfg) && IsRun(cfg, INIT, steps) && Enabled(cfg, After(cfg, INIT, steps), step)
    requires NoDoubleClaims(cfg, INIT, steps) && ClaimsNothingInFlight(After(cfg, INIT, steps), step)
    ensures longer == steps + [step] && IsRun(cfg, INIT, longer) && NoDoubleClaims(cfg, INIT, longer)
    ensures After(cfg, INIT, longer) == Apply(cfg, After(cfg, INIT, steps), step)
  {
    longer := Extend(cfg, INIT, steps, step);
    assert longer[..|longer| - 1] == steps;
  }

  lemma BothClaimed() returns (steps: seq<Step>)
    ensures IsRun(NO_RETRIES, INIT, steps) && NoDoubleClaims(NO_RETRIES, INIT, steps)
    ensures After(NO_RETRIES, INIT, steps)
         == State(ROWS, map[(1, "a") := Task(ROW, Queued), (1, "b") := Task(ROW, Queued)], 1, true, UNPOSTED, {})
  {
    EnqueueBoth();
    steps := ExtendSafely(NO_RETRIES, [], Enqueue("a", "e", "t", "u", 0));
    steps := ExtendSafely(NO_RETRIES, steps, Enqueue("b", "e", "t", "u", 0));
    ClaimBoth(After(NO_RETRIES, INIT, steps));
    steps := ExtendSafely(NO_RETRIES, steps, StartTick(["a", "b"], 0));
  }

  /** Two due rows are claimed; the attempt on the second throws while the first row's is under way. */
  lemma StragglerRun() returns (steps: seq<Step>)
    ensures IsRun(NO_RETRIES, INIT, steps)
    ensures After(NO_RETRIES, INIT, steps) == State(ROWS, map[(1, "a") := Task(ROW, Begun)], 1, false, UNPOSTED, {})
    ensures NoDoubleClaims(NO_RETRIES, INIT, steps)
  {
    steps := BothClaimed();
    BothBegin();
    steps := ExtendSafely(NO_RETRIES, steps, Begin((1, "a")));
    steps := ExtendSafely(NO_RETRIES, steps, Begin((1, "b")));
    SecondThrows();
    steps := ExtendSafely(NO_RETRIES, steps, Throw((1, "b")));
  }

  /** The step by which an attempt under way decides: a POST with this reply, or giving up before it. */
  function Deciding(t: TaskId, how: Option<Reply>): Step {
    match how
    case Some(reply) => Post(t, reply, 0)
    case None => Abandon(t, "")
  }

  const ACCEPTED: Option<Reply> := Some(Responded(200, ""))
  const REJECTED: Option<Reply> := Some(Responded(500, ""))

  /** What deciding this way gives at attempt count k. */
  function Concluded(cfg: Config, k: nat, how: Option<Reply>): Outcome
    requires ValidConfig(cfg)
  {
    match how
    case Some(reply) => Decide(k, cfg.maxRetries, reply, 0)
    case None => Outcome(GaveUp, None, Some(""))
  }

  /** The outcome that attempt t persists next: its own, or the one decided this way. */
  function OutcomeOf(cfg: Config, s: State, t: TaskId, how: Option<Reply>): Outcome
    requires ValidConfig(cfg) && t in s.tasks
  {
    if IsDecided(s, t) then s.tasks[t].progress.outcome else Concluded(cfg, s.tasks[t].snapshot.attemptCount, how)
  }

  /** Attempt t decides, if it has yet to, and persists. */
  ghost function Settled(cfg: Config, s: State, t: TaskId, how: Option<Reply>): State
    requires ValidConfig(cfg) && t in s.tasks && s.tasks[t].progress != Queued
  {
    var decided := if At(s, t, Begun) then Apply(cfg, s, Deciding(t, how)) else s;
    Apply(cfg, decided, Persist(t, 0))
  }

  lemma SettledState(cfg: Config, s: State, t: TaskId, u: TaskId, how: Option<Reply>)
    requires ValidConfig(cfg) && t in s.tasks && s.tasks[t].progress != Queued
    requires t.1 in s.rows && t.1 in s.ledger && u in s.tasks && u != t
    ensures var s' := Settled(cfg, s, t, how);
            && s'.running == s.running && s'.tick == s.tick && u in s'.tasks && s'.tasks[u] == s.tasks[u]
    ensures SettlesRow(cfg, s, t, how)
  {
  }

  /** What settling does to the row and its counts. */
  ghost predicate SettlesRow(cfg: Config, s: State, t: TaskId, how: Option<Reply>)
    requires ValidConfig(cfg) && t in s.tasks && s.tasks[t].progress != Queued
  {
    var s', o := Settled(cfg, s, t, how), OutcomeOf(cfg, s, t, how);
    && t.1 in s.rows && t.1 in s.ledger && t.1 in s'.rows && t.1 in s'.ledger
    && s'.rows[t.1] == Updated(s.rows[t.1], o, 0)
    && (!o.kind.Retry? ==> t.1 in s'.closed)
    && s'.ledger[t.1].lost == s.ledger[t.1].lost
    && s'.ledger[t.1].posts == s.ledger[t.1].posts + if At(s, t, Begun) && how.Some? then 1 else 0
  }

  lemma Settle(cfg: Config, steps: seq<Step>, t: TaskId, how: Option<Reply>) returns (more: seq<Step>)
    requires ValidConfig(cfg) && IsRun(cfg, INIT, steps)
    requires t in After(cfg, INIT, steps).tasks && After(cfg, INIT, steps).tasks[t].progress != Queued
    ensures IsRun(cfg, INIT, steps + more) && After(cfg, INIT, steps + more) == Settled(cfg, After(cfg, INIT, steps), t, how)
    ensures forall step <- more :: !step.StartTick?
  {
    if At(After(cfg, INIT, steps), t, Begun) {
      var decided := Extend(cfg, INIT, steps, Deciding(t, how));
      var persisted := Extend(cfg, INIT, decided, Persist(t, 0));
      more := [Deciding(t, how), Persist(t, 0)];
      assert steps + more == persisted;
    } else {
      var persisted := Extend(cfg, INIT, steps, Persist(t, 0));
      more := [Persist(t, 0)];
    }
  }

  /** The state after such a claim: t as it was, and a second attempt on the same row with the same count. */
  lemma DoubleClaimed(cfg: Config, s: State, start: Step, t: TaskId)
    requires ValidConfig(cfg) && start.StartTick? && Enabled(cfg, s, start) && TasksOfPastTicks(s)
    requires t in s.tasks && t.1 in start.claimed && TaskOk(cfg, s, t)
    ensures var s', u := Apply(cfg, s, start), (s.tick + 1, t.1);
            && s'.running && s'.tick == s.tick + 1 && s'.rows == s.rows && s'.ledger == s.ledger && u != t
            && t in s'.tasks && s'.tasks[t] == s.tasks[t] && s.tasks[t].progress != Queued
            && t.1 in s.rows && t.1 in s.ledger
            && u in s'.tasks && s'.tasks[u] == Task(s.rows[t.1], Queued)
            && s.rows[t.1].attemptCount == s.tasks[t].snapshot.attemptCount
            && s.ledger[t.1].posts == s.rows[t.1].attemptCount + s.ledger[t.1].lost + if HasPosted(s, t) then 1 else 0
  {
  }

  /** An attempt of the tick in progress can start and POST whatever became of its row. */
  lemma SecondAttemptPosts(cfg: Config, s: State, u: TaskId)
    requires ValidConfig(cfg) && s.running && u.0 == s.tick && At(s, u, Queued) && u.1 in s.rows && u.1 in s.ledger
    ensures Enabled(cfg, s, Begin(u))
    ensures var begun, post := Apply(cfg, s, Begin(u)), Post(u, Responded(200, ""), 0);
            && Enabled(cfg, begun, post) && begun.closed == s.closed
            && (ProperPost(begun, post) ==>
                  u.1 !in s.closed && s.rows[u.1].attemptCount == s.tasks[u].snapshot.attemptCount)
            && Apply(cfg, begun, post).ledger == s.ledger[u.1 := Count(s.ledger[u.1].posts + 1, s.ledger[u.1].lost)]
  {
  }

  /**
    Whenever a tick claims a row that attempt t is still working on, a POST out of turn is in reach
    before the next tick: on a delivery already persisted as delivered or failed unless t had decided
    to retry, and beyond the bound if the row was at its last attempt and t has not been abandoned.
   */
  lemma DoubleClaimMisposts(cfg: Config, steps: seq<Step>, start: Step, t: TaskId) returns (more: seq<Step>, post: Step)
    requires ValidConfig(cfg) && IsRun(cfg, INIT, steps) && NoDoubleClaims(cfg, INIT, steps)
    requires start.StartTick? && Enabled(cfg, After(cfg, INIT, steps), start)
    requires t in After(cfg, INIT, steps).tasks && t.1 in start.claimed
    ensures Misposts(cfg, steps + [start], more, post)
    ensures var was := After(cfg, INIT, steps).tasks[t];
            MayClose(was.progress) ==> post.task.1 in After(cfg, INIT, steps + [start] + more).closed
    ensures var was := After(cfg, INIT, steps).tasks[t];
            was.snapshot.attemptCount == cfg.maxRetries && MayPost(was.progress) ==>
              var ledger := Apply(cfg, After(cfg, INIT, steps + [start] + more), post).ledger;
              post.task.1 in ledger && ledger[post.task.1].posts == 2 + cfg.maxRetries + ledger[post.task.1].lost
  {
    RunKeepsInv(cfg, steps);
    RunKeepsPastTicks(cfg, steps);
    var s := After(cfg, INIT, steps);
    var u := (s.tick + 1, t.1);
    DoubleClaimed(cfg, s, start, t);
    SettledState(cfg, Apply(cfg, s, start), t, u, ACCEPTED);
    SecondAttemptPosts(cfg, Settled(cfg, Apply(cfg, s, start), t, ACCEPTED), u);
    var started := Extend(cfg, INIT, steps, start);
    more := SettleAndBegin(cfg, started, t, u, ACCEPTED);
    post := Post(u, Responded(200, ""), 0);
  }

  lemma SettleAndBegin(cfg: Config, steps: seq<Step>, t: TaskId, u: TaskId, how: Option<Reply>) returns (more: seq<Step>)
    requires ValidConfig(cfg) && IsRun(cfg, INIT, steps)
    requires var s := After(cfg, INIT, steps);
             t in s.tasks && s.tasks[t].progress != Queued && Enabled(cfg, Settled(cfg, s, t, how), Begin(u))
    ensures IsRun(cfg, INIT, steps + more) && forall step <- more :: !step.StartTick?
    ensures After(cfg, INIT, steps + more) == Apply(cfg, Settled(cfg, After(cfg, INIT, steps), t, how), Begin(u))
  {
    more := Settle(cfg, steps, t, how);
    var begun := Extend(cfg, INIT, steps + more, Begin(u));
    more := more + [Begin(u)];
    assert begun == steps + more;
  }

  /** Both attempts on the row run to their end, one after the other. */
  ghost function BothSettled(cfg: Config, s: State, t: TaskId, u: TaskId, howT: Option<Reply>, howU: Option<Reply>): State
    requires ValidConfig(cfg) && t in s.tasks && s.tasks[t].progress != Queued
    requires Enabled(cfg, Settled(cfg, s, t, howT), Begin(u))
  {
    Settled(cfg, Apply(cfg, Settled(cfg, s, t, howT), Begin(u)), u, howU)
  }

  lemma BothSettle(cfg: Config, steps: seq<Step>, t: TaskId, u: TaskId, howT: Option<Reply>, howU: Option<Reply>)
    returns (more: seq<Step>)
    requires ValidConfig(cfg) && IsRun(cfg, INIT, steps)
    requires var s := After(cfg, INIT, steps);
             t in s.tasks && s.tasks[t].progress != Queued && Enabled(cfg, Settled(cfg, s, t, howT), Begin(u))
    ensures IsRun(cfg, INIT, steps + more) && forall step <- more :: !step.StartTick?
    ensures After(cfg, INIT, steps + more) == BothSettled(cfg, After(cfg, INIT, steps), t, u, howT, howU)
  {
    var first := SettleAndBegin(cfg, steps, t, u, howT);
    BeginningBegins(cfg, Settled(cfg, After(cfg, INIT, steps), t, howT), u);
    var second := Settle(cfg, steps + first, u, howU);
    more := first + second;
    assert steps + first + second == steps + more;
  }

  lemma BeginningBegins(cfg: Config, s: State, u: TaskId)
    requires ValidConfig(cfg) && Enabled(cfg, s, Begin(u))
    ensures At(Apply(cfg, s, Begin(u)), u, Begun)
  {
  }

  /** What becomes of the row and its counts. */
  lemma BothSettledState(cfg: Config, s: State, start: Step, t: TaskId, howT: Option<Reply>, howU: Option<Reply>)
    requires ValidConfig(cfg) && start.StartTick? && Enabled(cfg, s, start) && TasksOfPastTicks(s)
    requires t in s.tasks && t.1 in start.claimed && TaskOk(cfg, s, t)
    ensures var s1, u, k := Apply(cfg, s, start), (s.tick + 1, t.1), s.tasks[t].snapshot.attemptCount;
            && t in s1.tasks && s1.tasks[t].progress != Queued && Enabled(cfg, Settled(cfg, s1, t, howT), Begin(u))
            && var end := BothSettled(cfg, s1, t, u, howT, howU);
               && t.1 in s.rows && t.1 in end.rows && t.1 in end.ledger
               && end.rows[t.1] == Updated(Updated(s.rows[t.1], OutcomeOf(cfg, s, t, howT), 0), Concluded(cfg, k, howU), 0)
               && end.ledger[t.1].posts == k + end.ledger[t.1].lost
                    + (if HasPosted(s, t) || (At(s, t, Begun) && howT.Some?) then 1 else 0) + if howU.Some? then 1 else 0
  {
    var u := (s.tick + 1, t.1);
    DoubleClaimed(cfg, s, start, t);
    var s1 := Apply(cfg, s, start);
    SettledState(cfg, s1, t, u, howT);
    BegunState(cfg, Settled(cfg, s1, t, howT), u, howU);
  }

  lemma BegunState(cfg: Config, s: State, u: TaskId, how: Option<Reply>)
    requires ValidConfig(cfg) && s.running && u.0 == s.tick && At(s, u, Queued) && u.1 in s.rows && u.1 in s.ledger
    ensures Enabled(cfg, s, Begin(u))
    ensures var begun := Apply(cfg, s, Begin(u));
            && u in begun.tasks && begun.tasks[u].progress == Begun && begun.rows == s.rows && begun.ledger == s.ledger
            && OutcomeOf(cfg, begun, u, how) == Concluded(cfg, s.tasks[u].snapshot.attemptCount, how)
            && SettlesRow(cfg, begun, u, how)
  {
  }

  lemma OneOfEachMarksBoth(row: Delivery, first: Outcome, second: Outcome, maxRetries: nat)
    requires (first.kind.Succeeded? && second.kind.GaveUp?) || (first.kind.GaveUp? && second.kind.Succeeded?)
    ensures var end := Updated(Updated(row, first, 0), second, 0);
            end.deliveredAt.Some? && end.failedAt.Some? && !RowOk(end, maxRetries)
  {
  }

  /** A double claim can mark a row both delivered and failed, unless the older attempt had decided to retry. */
  lemma DoubleClaimMarksBoth(cfg: Config, steps: seq<Step>, start: Step, t: TaskId) returns (more: seq<Step>)
    requires ValidConfig(cfg) && IsRun(cfg, INIT, steps) && NoDoubleClaims(cfg, INIT, steps)
    requires start.StartTick? && Enabled(cfg, After(cfg, INIT, steps), start)
    requires t in After(cfg, INIT, steps).tasks && t.1 in start.claimed && MayClose(After(cfg, INIT, steps).tasks[t].progress)
    ensures IsRun(cfg, INIT, steps + [start] + more) && forall step <- more :: !step.StartTick?
    ensures var rows := After(cfg, INIT, steps + [start] + more).rows;
            t.1 in rows && rows[t.1].deliveredAt.Some? && rows[t.1].failedAt.Some? && !RowOk(rows[t.1], cfg.maxRetries)
  {
    RunKeepsInv(cfg, steps);
    RunKeepsPastTicks(cfg, steps);
    var s := After(cfg, INIT, steps);
    var p := s.tasks[t].progress;
    var second := if p.Decided? && p.outcome.kind.Succeeded? then None else ACCEPTED;
    BothSettledState(cfg, s, start, t, None, second);
    OneOfEachMarksBoth(s.rows[t.1], OutcomeOf(cfg, s, t, None), Concluded(cfg, s.tasks[t].snapshot.attemptCount, second), cfg.maxRetries);
    var started := Extend(cfg, INIT, steps, start);
    more := BothSettle(cfg, started, t, (s.tick + 1, t.1), None, second);
  }

  /**
    And one retry before the last attempt it can leave a pending row with more attempts than are allowed,
    all POSTs used up: the row's next POST is one beyond the bound.
   */
  lemma DoubleClaimOvercounts(cfg: Config, steps: seq<Step>, start: Step, t: TaskId) returns (more: seq<Step>)
    requires ValidConfig(cfg) && IsRun(cfg, INIT, steps) && NoDoubleClaims(cfg, INIT, steps)
    requires start.StartTick? && Enabled(cfg, After(cfg, INIT, steps), start)
    requires t in After(cfg, INIT, steps).tasks && t.1 in start.claimed
    requires var was := After(cfg, INIT, steps).tasks[t];
             was.snapshot.attemptCount + 1 == cfg.maxRetries
             && (was.progress == Begun || (was.progress.Decided? && was.progress.outcome.kind.Retry?))
    ensures IsRun(cfg, INIT, steps + [start] + more) && forall step <- more :: !step.StartTick?
    ensures var end := After(cfg, INIT, steps + [start] + more);
            && t.1 in end.rows && end.rows[t.1].status == Pending && end.rows[t.1].attemptCount == cfg.maxRetries + 1
            && !RowOk(end.rows[t.1], cfg.maxRetries)
            && t.1 in end.ledger && end.ledger[t.1].posts == 1 + cfg.maxRetries + end.ledger[t.1].lost
  {
    RunKeepsInv(cfg, steps);
    RunKeepsPastTicks(cfg, steps);
    var s := After(cfg, INIT, steps);
    BothSettledState(cfg, s, start, t, REJECTED, REJECTED);
    var started := Extend(cfg, INIT, steps, start);
    more := BothSettle(cfg, started, t, (s.tick + 1, t.1), REJECTED, REJECTED);
  }

  /** After `steps`, and before any further tick, an attempt can make a POST out of turn. */
  ghost predicate Misposts(cfg: Config, steps: seq<Step>, more: seq<Step>, post: Step) {
    && ValidConfig(cfg) && IsRun(cfg, INIT, steps + more) && (forall step <- more :: !step.StartTick?)
    && post.Post? && Enabled(cfg, After(cfg, INIT, steps + more), post)
    && !ProperPost(After(cfg, INIT, steps + more), post)
  }

  lemma {:induction false} NoTickNoDoubleClaim(cfg: Config, steps: seq<Step>, more: seq<Step>)
    requires ValidConfig(cfg) && IsRun(cfg, INIT, steps) && NoDoubleClaims(cfg, INIT, steps)
    requires IsRun(cfg, INIT, steps + more) && forall step <- more :: !step.StartTick?
    ensures NoDoubleClaims(cfg, INIT, steps + more)
    decreases |more|
  {
    if more == [] {
      assert steps + more == steps;
    } else {
      var fewer := more[..|more| - 1];
      assert (steps + more)[..|steps + more| - 1] == steps + fewer;
      NoTickNoDoubleClaim(cfg, steps, fewer);
    }
  }

  /**
    Exactly when a tick is safe: after any run so far safe, a tick rules out every POST out of turn
    until the next one iff it claims no row that an attempt is still working on.
   */
  lemma TickIsSafeIff(cfg: Config, steps: seq<Step>, start: Step)
    requires ValidConfig(cfg) && IsRun(cfg, INIT, steps) && NoDoubleClaims(cfg, INIT, steps)
    requires start.StartTick? && Enabled(cfg, After(cfg, INIT, steps), start)
    ensures ClaimsNothingInFlight(After(cfg, INIT, steps), start)
            <==> forall more, post :: !Misposts(cfg, steps + [start], more, post)
  {
    var s := After(cfg, INIT, steps);
    var started := Extend(cfg, INIT, steps, start);
    if ClaimsNothingInFlight(s, start) {
      assert started[..|started| - 1] == steps;
      forall more, post ensures !Misposts(cfg, started, more, post) {
        if Misposts(cfg, started, more, post) {
          NoTickNoDoubleClaim(cfg, started, more);
          NoPostAfterClosed(cfg, started + more, post);
        }
      }
    } else {
      var t :| t in s.tasks && t.1 in start.claimed;
      var more, post := DoubleClaimMisposts(cfg, steps, start, t);
    }
  }

  /** Such a tick is in reach: with no retries allowed and nothing lost, a delivered delivery is POSTed again. */
  lemma StragglerBreaksSafety() returns (steps: seq<Step>, post: Step)
    ensures IsRun(NO_RETRIES, INIT, steps) && post.Post? && Enabled(NO_RETRIES, After(NO_RETRIES, INIT, steps), post)
    ensures post.task.1 in After(NO_RETRIES, INIT, steps).closed
  {
    var run := StragglerRun();
    ClaimBoth(After(NO_RETRIES, INIT, run));
    var start := StartTick(["a", "b"], 0);
    var more;
    more, post := DoubleClaimMisposts(NO_RETRIES, run, start, (1, "a"));
    steps := run + [start] + more;
  }
}
