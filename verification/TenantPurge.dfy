/**
  Tenant erasure, app/db/queries/tenant-purge.ts.

  Seven tables reference `tenants` with ON DELETE CASCADE; `validation_audit` does not. The purge is
  not a transaction: it is interleaved here, statement by statement, with requests that
  authenticate and later insert at most one audit row, with writers of every other row, and with
  other deletions. First the protocol; then the procedure on its own, with its report.
 */
module TenantPurge {
  import opened Wrappers
  import opened BatchedDelete

  type TenantId = string
  type RowId = string
  type AuditId = string
  type RequestId = nat

  datatype Table =
    | ApiKeys | AppleCredentials | GoogleCredentials | WebhookConfigs
    | WebhookEvents | WebhookDeliveries | GooglePurchaseChains

  /** A row of a referencing table; a delivery also references its event. */
  datatype Row = Row(table: Table, tenantId: TenantId, eventId: Option<RowId>)

  /** An audit row, and the request that wrote it. */
  datatype AuditRow = AuditRow(tenantId: TenantId, request: RequestId)

  /** The two reads of authentication, then the request proper, which may end with one audit row. */
  datatype Phase = KeyFound | Authenticated | Ended

  datatype Request = Request(tenantId: TenantId, phase: Phase)

  datatype Stage =
    | Idle
    | Deliveries(batches: nat) | Events(batches: nat) | Chains | TenantRow | Audit(batches: nat)
    | Verify(counted: nat, remaining: nat)
    | Finished(complete: bool)

  datatype State = State(
    tenants: set<TenantId>,
    used: set<TenantId>,               // tenant ids ever given out; they are never given out again
    rows: map<RowId, Row>,
    audit: map<AuditId, AuditRow>,
    requests: map<RequestId, Request>,
    stage: Stage)

  datatype Step =
    | FindKey(r: RequestId, tenantId: TenantId)
    | FindTenant(r: RequestId)
    | Record(r: RequestId, id: AuditId)
    | End(r: RequestId)
    | CreateTenant(tenantId: TenantId)
    | InsertRow(id: RowId, row: Row)
    | DeleteElsewhere(ids: set<RowId>, auditIds: set<AuditId>)
    | PurgeStart
    | PurgeBatch(batch: set<RowId>)
    | PurgeChains
    | PurgeTenantRow
    | PurgeAuditBatch(auditBatch: set<AuditId>)
    | PurgeCount

  function Of(table: Table, t: TenantId): Row -> bool { (r: Row) => r.table == table && r.tenantId == t }

  function AuditOf(t: TenantId): AuditRow -> bool { (a: AuditRow) => a.tenantId == t }

  /** Rows left once the rows in `gone` are deleted: deliveries go with their event. */
  function Without(rows: map<RowId, Row>, gone: set<RowId>): map<RowId, Row> {
    map id | id in rows && id !in gone && !(rows[id].eventId.Some? && rows[id].eventId.value in gone) :: rows[id]
  }

  function RowsOf(rows: map<RowId, Row>, t: TenantId): set<RowId> {
    set id | id in rows && rows[id].tenantId == t
  }

  /** The nine counts of the verification pass, in order. */
  function CountNo(s: State, t: TenantId, i: nat): nat {
    match i
    case 0 => |Matching(s.rows, Of(ApiKeys, t))|
    case 1 => |Matching(s.rows, Of(AppleCredentials, t))|
    case 2 => |Matching(s.rows, Of(GoogleCredentials, t))|
    case 3 => |Matching(s.rows, Of(WebhookConfigs, t))|
    case 4 => |Matching(s.rows, Of(WebhookEvents, t))|
    case 5 => |Matching(s.rows, Of(WebhookDeliveries, t))|
    case 6 => |Matching(s.rows, Of(GooglePurchaseChains, t))|
    case 7 => |Matching(s.audit, AuditOf(t))|
    case _ => if t in s.tenants then 1 else 0
  }

  /** A batch loop goes on after a full batch, up to the batch cap. */
  predicate LoopGoesOn(batch: nat, batches: nat) { batch >= DELETE_BATCH_SIZE && batches + 1 < MAX_BATCHES }

  /** The foreign keys, as the database enforces them; a delivery is enqueued for its event's tenant. */
  predicate ReferencesHold(tenants: set<TenantId>, rows: map<RowId, Row>, row: Row) {
    && row.tenantId in tenants
    && (row.eventId.Some? <==> row.table == WebhookDeliveries)
    && (row.eventId.Some? ==>
          && row.eventId.value in rows
          && rows[row.eventId.value].table == WebhookEvents
          && rows[row.eventId.value].tenantId == row.tenantId)
  }

  ghost predicate Enabled(t: TenantId, s: State, step: Step) {
    match step
    case FindKey(r, tenant) => r !in s.requests && exists id <- s.rows :: s.rows[id].table == ApiKeys && s.rows[id].tenantId == tenant
    case FindTenant(r) => r in s.requests && s.requests[r].phase == KeyFound && s.requests[r].tenantId in s.tenants
    case Record(r, id) => r in s.requests && s.requests[r].phase == Authenticated && id !in s.audit
    case End(r) => r in s.requests
    case CreateTenant(id) => id !in s.used
    case InsertRow(id, row) => id !in s.rows && ReferencesHold(s.tenants, s.rows, row)
    case DeleteElsewhere(_, _) => true
    case PurgeStart => s.stage.Idle? || s.stage.Finished?
    case PurgeBatch(batch) =>
      || (s.stage.Deliveries? && IsBatch(s.rows, Of(WebhookDeliveries, t), batch))
      || (s.stage.Events? && IsBatch(s.rows, Of(WebhookEvents, t), batch))
    case PurgeChains => s.stage == Chains
    case PurgeTenantRow => s.stage == TenantRow
    case PurgeAuditBatch(batch) => s.stage.Audit? && IsBatch(s.audit, AuditOf(t), batch)
    case PurgeCount => s.stage.Verify?
  }

  function WithPhase(s: State, r: RequestId, p: Phase): State
    requires r in s.requests
  {
    s.(requests := s.requests[r := s.requests[r].(phase := p)])
  }

  function Apply(t: TenantId, s: State, step: Step): State
    requires Enabled(t, s, step)
  {
    match step
    case FindKey(r, tenant) => s.(requests := s.requests[r := Request(tenant, KeyFound)])
    case FindTenant(r) => WithPhase(s, r, Authenticated)
    case Record(r, id) => WithPhase(s, r, Ended).(audit := s.audit[id := AuditRow(s.requests[r].tenantId, r)])
    case End(r) => WithPhase(s, r, Ended)
    case CreateTenant(id) => s.(tenants := s.tenants + {id}, used := s.used + {id})
    case InsertRow(id, row) => s.(rows := s.rows[id := row])
    case DeleteElsewhere(ids, auditIds) => s.(rows := Without(s.rows, ids), audit := s.audit - auditIds)
    case PurgeStart => s.(stage := Deliveries(0))
    case PurgeBatch(batch) =>
      s.(rows := Without(s.rows, batch),
         stage := if s.stage.Deliveries?
                  then if LoopGoesOn(|batch|, s.stage.batches) then Deliveries(s.stage.batches + 1) else Events(0)
                  else if LoopGoesOn(|batch|, s.stage.batches) then Events(s.stage.batches + 1) else Chains)
    case PurgeChains => s.(rows := Without(s.rows, Matching(s.rows, Of(GooglePurchaseChains, t))), stage := TenantRow)
    case PurgeTenantRow => s.(tenants := s.tenants - {t}, rows := Without(s.rows, RowsOf(s.rows, t)), stage := Audit(0))
    case PurgeAuditBatch(batch) =>
      s.(audit := s.audit - batch,
         stage := if LoopGoesOn(|batch|, s.stage.batches) then Audit(s.stage.batches + 1) else Verify(0, 0))
    case PurgeCount =>
      var remaining := s.stage.remaining + CountNo(s, t, s.stage.counted);
      s.(stage := if s.stage.counted < 8 then Verify(s.stage.counted + 1, remaining) else Finished(remaining == 0))
  }

  ghost predicate IsRun(t: TenantId, s0: State, steps: seq<Step>)
    decreases |steps|, 0
  {
    steps == [] ||
    (IsRun(t, s0, steps[..|steps| - 1]) && Enabled(t, After(t, s0, steps[..|steps| - 1]), steps[|steps| - 1]))
  }

  ghost function After(t: TenantId, s0: State, steps: seq<Step>): State
    requires IsRun(t, s0, steps)
    decreases |steps|, 1
  {
    if steps == [] then s0 else Apply(t, After(t, s0, steps[..|steps| - 1]), steps[|steps| - 1])
  }

  // ---------------------------------------------------------------------------------------------
  // What every step keeps.
  // ---------------------------------------------------------------------------------------------

  ghost predicate Consistent(s: State) {
    && s.tenants <= s.used
    && (forall id <- s.rows :: ReferencesHold(s.tenants, s.rows, s.rows[id]))
    && (forall a <- s.audit ::
          && s.audit[a].request in s.requests
          && s.requests[s.audit[a].request] == Request(s.audit[a].tenantId, Ended))
    && (forall a <- s.audit, b <- s.audit :: s.audit[a].request == s.audit[b].request ==> a == b)
  }

  lemma StepKeepsConsistent(t: TenantId, s: State, step: Step)
    requires Consistent(s) && Enabled(t, s, step)
    ensures Consistent(Apply(t, s, step))
  {
  }

  /** The purge's own steps leave every row, audit row and tenant of other tenants as it was. */
  lemma PurgeTouchesOnlyItsTenant(t: TenantId, s: State, step: Step)
    requires Consistent(s) && Enabled(t, s, step)
    requires step.PurgeBatch? || step.PurgeChains? || step.PurgeTenantRow? || step.PurgeAuditBatch? || step.PurgeCount? || step.PurgeStart?
    ensures var s' := Apply(t, s, step);
            && s'.tenants - {t} == s.tenants - {t} && s'.requests == s.requests
            && (forall id <- s.rows | s.rows[id].tenantId != t :: id in s'.rows && s'.rows[id] == s.rows[id])
            && (forall a <- s.audit | s.audit[a].tenantId != t :: a in s'.audit && s'.audit[a] == s.audit[a])
            && (forall id <- s'.rows :: id in s.rows) && (forall a <- s'.audit :: a in s.audit)
  {
  }

  /** And they delete what they are for: a batch of at most 5,000, full unless it is all there is; all chains; the tenant. */
  lemma PurgeStatementsDelete(t: TenantId, s: State, step: Step)
    requires Enabled(t, s, step)
    ensures step.PurgeBatch? ==>
              var table := if s.stage.Deliveries? then WebhookDeliveries else WebhookEvents;
              var left := RowsIn(Apply(t, s, step).rows, table, t);
              && step.batch <= RowsIn(s.rows, table, t) && left <= RowsIn(s.rows, table, t) - step.batch
              && (|step.batch| < 5_000 ==> left == {})
    ensures step.PurgeBatch? || step.PurgeAuditBatch? ==>
              var batch := if step.PurgeBatch? then step.batch else step.auditBatch;
              |batch| <= 5_000
    ensures step.PurgeAuditBatch? ==>
              && AuditRows(Apply(t, s, step).audit, t) == AuditRows(s.audit, t) - step.auditBatch
              && step.auditBatch <= AuditRows(s.audit, t)
              && (|step.auditBatch| < 5_000 ==> AuditRows(Apply(t, s, step).audit, t) == {})
    ensures step.PurgeChains? ==> RowsIn(Apply(t, s, step).rows, GooglePurchaseChains, t) == {}
    ensures step.PurgeTenantRow? ==>
              t !in Apply(t, s, step).tenants && forall id <- Apply(t, s, step).rows :: Apply(t, s, step).rows[id].tenantId != t
  {
    if step.PurgeBatch? {
      var table := if s.stage.Deliveries? then WebhookDeliveries else WebhookEvents;
      TableCount(s.rows, table, t);
      if |step.batch| < 5_000 { WholeBatch(Matching(s.rows, Of(table, t)), step.batch); }
    }
    if step.PurgeAuditBatch? {
      AuditByTenant(s.audit, t);
      if |step.auditBatch| < 5_000 { WholeBatch(Matching(s.audit, AuditOf(t)), step.auditBatch); }
    }
  }

  /** The nine counts of the verification pass are the sizes of the nine tables it names. */
  lemma CountsByTable(s: State, t: TenantId)
    ensures CountNo(s, t, 0) == |RowsIn(s.rows, ApiKeys, t)| && CountNo(s, t, 1) == |RowsIn(s.rows, AppleCredentials, t)|
    ensures CountNo(s, t, 2) == |RowsIn(s.rows, GoogleCredentials, t)| && CountNo(s, t, 3) == |RowsIn(s.rows, WebhookConfigs, t)|
    ensures CountNo(s, t, 4) == |RowsIn(s.rows, WebhookEvents, t)| && CountNo(s, t, 5) == |RowsIn(s.rows, WebhookDeliveries, t)|
    ensures CountNo(s, t, 6) == |RowsIn(s.rows, GooglePurchaseChains, t)| && CountNo(s, t, 7) == |AuditRows(s.audit, t)|
    ensures CountNo(s, t, 8) == if t in s.tenants then 1 else 0
  {
    CountAllCounts(s.tenants, s.rows, s.audit, t);
  }

  // ---------------------------------------------------------------------------------------------
  // Erasure.
  // ---------------------------------------------------------------------------------------------

  /** The tenant row is gone, and no referencing table has a row of the tenant. */
  ghost predicate Erased(t: TenantId, s: State) {
    t !in s.tenants && t in s.used && forall id <- s.rows :: s.rows[id].tenantId != t
  }

  /** The tenant's requests that have authenticated and not ended. */
  ghost function InFlight(t: TenantId, s: State): set<RequestId> {
    set r | r in s.requests && s.requests[r] == Request(t, Authenticated)
  }

  /** Deleting the tenant row erases; nothing any step can do brings a row back or lets a request in. */
  lemma ErasureIsFinal(t: TenantId, s: State, step: Step)
    requires Consistent(s) && Enabled(t, s, step)
    ensures step.PurgeTenantRow? && t in s.tenants ==> Erased(t, Apply(t, s, step))
    ensures Erased(t, s) ==> Erased(t, Apply(t, s, step)) && InFlight(t, Apply(t, s, step)) <= InFlight(t, s)
  {
  }

  /** Before that, they can: an active key is all it takes for a new request to leave an audit row behind. */
  lemma UnerasedTenantStillRecords(t: TenantId, s: State, key: RowId, r: RequestId, id: AuditId)
    requires t in s.tenants && key in s.rows && s.rows[key] == Row(ApiKeys, t, None)
    requires r !in s.requests && id !in s.audit
    ensures var steps := [FindKey(r, t), FindTenant(r), Record(r, id)];
            && IsRun(t, s, steps)
            && id in After(t, s, steps).audit && After(t, s, steps).audit[id] == AuditRow(t, r)
            && After(t, s, steps).stage == s.stage
  {
    KeyIsFound(t, s, key, r);
    var found := Apply(t, s, FindKey(r, t));
    TenantIsFound(t, found, r);
    var authenticated := Apply(t, found, FindTenant(r));
    AuditIsRecorded(t, authenticated, r, id);
    var one := Extend(t, s, [], FindKey(r, t));
    var two := Extend(t, s, one, FindTenant(r));
    var three := Extend(t, s, two, Record(r, id));
    assert three == [FindKey(r, t), FindTenant(r), Record(r, id)];
  }

  lemma KeyIsFound(t: TenantId, s: State, key: RowId, r: RequestId)
    requires key in s.rows && s.rows[key] == Row(ApiKeys, t, None) && r !in s.requests
    ensures Enabled(t, s, FindKey(r, t))
    ensures Apply(t, s, FindKey(r, t)) == s.(requests := s.requests[r := Request(t, KeyFound)])
  {
  }

  lemma TenantIsFound(t: TenantId, s: State, r: RequestId)
    requires t in s.tenants && r in s.requests && s.requests[r] == Request(t, KeyFound)
    ensures Enabled(t, s, FindTenant(r))
    ensures Apply(t, s, FindTenant(r)) == s.(requests := s.requests[r := Request(t, Authenticated)])
  {
  }

  lemma AuditIsRecorded(t: TenantId, s: State, r: RequestId, id: AuditId)
    requires r in s.requests && s.requests[r] == Request(t, Authenticated) && id !in s.audit
    ensures Enabled(t, s, Record(r, id))
    ensures var after := Apply(t, s, Record(r, id));
      after.audit == s.audit[id := AuditRow(t, r)] && after.stage == s.stage
  {
  }

  lemma Extend(t: TenantId, s0: State, steps: seq<Step>, step: Step) returns (longer: seq<Step>)
    requires IsRun(t, s0, steps) && Enabled(t, After(t, s0, steps), step)
    ensures longer == steps + [step] && IsRun(t, s0, longer)
    ensures After(t, s0, longer) == Apply(t, After(t, s0, steps), step)
  {
    longer := steps + [step];
    assert longer[..|longer| - 1] == steps;
  }

  // ---------------------------------------------------------------------------------------------
  // Survivors.
  // ---------------------------------------------------------------------------------------------

  /** Every audit row of the tenant was written by one of the requests in `late`, as will be any to come. */
  ghost predicate OnlyFrom(t: TenantId, s: State, late: set<RequestId>) {
    && Erased(t, s) && Consistent(s)
    && InFlight(t, s) <= late
    && forall a <- s.audit | s.audit[a].tenantId == t :: s.audit[a].request in late
  }

  /** A short batch is a drained table: from here on only requests still in flight can leave anything. */
  lemma ShortBatchDrains(t: TenantId, s: State, batch: set<AuditId>)
    requires Consistent(s) && Erased(t, s) && Enabled(t, s, PurgeAuditBatch(batch))
    requires |batch| < DELETE_BATCH_SIZE
    ensures var s' := Apply(t, s, PurgeAuditBatch(batch));
            Matching(s'.audit, AuditOf(t)) == {} && OnlyFrom(t, s', InFlight(t, s))
  {
    StepKeepsConsistent(t, s, PurgeAuditBatch(batch));
    WholeBatch(Matching(s.audit, AuditOf(t)), batch);
  }

  lemma WholeBatch<T>(whole: set<T>, part: set<T>)
    requires part <= whole && |part| == |whole|
    ensures part == whole
  {
    Cardinality(whole, part);
    assert whole - part == {};
  }

  lemma {:induction false} OnlyFromPersists(t: TenantId, s0: State, steps: seq<Step>, late: set<RequestId>)
    requires OnlyFrom(t, s0, late) && IsRun(t, s0, steps)
    ensures OnlyFrom(t, After(t, s0, steps), late)
  {
    if steps != [] {
      var before, step := After(t, s0, steps[..|steps| - 1]), steps[|steps| - 1];
      OnlyFromPersists(t, s0, steps[..|steps| - 1], late);
      StepKeepsConsistent(t, before, step);
      ErasureIsFinal(t, before, step);
      OnlyFromStep(t, before, step, late);
    }
  }

  lemma OnlyFromStep(t: TenantId, s: State, step: Step, late: set<RequestId>)
    requires OnlyFrom(t, s, late) && Enabled(t, s, step)
    ensures forall a <- Apply(t, s, step).audit | Apply(t, s, step).audit[a].tenantId == t ::
              Apply(t, s, step).audit[a].request in late
  {
    if step.Record? && s.requests[step.r].tenantId == t {
      assert step.r in InFlight(t, s);
    }
  }

  /** Each late request is still in flight or has left at most one audit row. */
  lemma LateRequestsCoverRows(t: TenantId, s: State, late: set<RequestId>)
    requires OnlyFrom(t, s, late)
    ensures |Matching(s.audit, AuditOf(t))| + |InFlight(t, s)| <= |late|
  {
    var ids := Matching(s.audit, AuditOf(t));
    var writers := set a | a in ids :: s.audit[a].request;
    SameCount(s.audit, ids, writers);
    assert writers !! InFlight(t, s);
    assert writers + InFlight(t, s) <= late;
    Cardinality(late, writers + InFlight(t, s));
    assert |writers + InFlight(t, s)| == |writers| + |InFlight(t, s)|;
  }

  lemma {:induction false} SameCount(audit: map<AuditId, AuditRow>, ids: set<AuditId>, writers: set<RequestId>)
    requires forall a <- ids :: a in audit
    requires forall a <- ids, b <- ids :: audit[a].request == audit[b].request ==> a == b
    requires writers == set a | a in ids :: audit[a].request
    ensures |writers| == |ids|
    decreases ids
  {
    if ids != {} {
      var a :| a in ids;
      var fewer := set b | b in ids - {a} :: audit[b].request;
      SameCount(audit, ids - {a}, fewer);
      assert writers == fewer + {audit[a].request};
    }
  }

  /**
    The purge's promise, in every interleaving. Let the tenant row go at s1, and let a later audit
    batch come up short. From then on, whatever else runs: no referencing table has a row of the
    tenant, and the audit rows left are at most one each of requests that had authenticated before
    the tenant row went and were still in flight at the short batch.
   */
  lemma SurvivorsAreLateRequests(t: TenantId, s1: State, toBatch: seq<Step>, batch: set<AuditId>, more: seq<Step>)
    requires Consistent(s1) && Erased(t, s1) && IsRun(t, s1, toBatch)
    requires Enabled(t, After(t, s1, toBatch), PurgeAuditBatch(batch)) && |batch| < DELETE_BATCH_SIZE
    requires IsRun(t, Apply(t, After(t, s1, toBatch), PurgeAuditBatch(batch)), more)
    ensures var atBatch := After(t, s1, toBatch);
            var end := After(t, Apply(t, atBatch, PurgeAuditBatch(batch)), more);
            && Erased(t, end)
            && InFlight(t, atBatch) <= InFlight(t, s1)
            && (forall a <- end.audit | end.audit[a].tenantId == t :: end.audit[a].request in InFlight(t, atBatch))
            && (forall a <- end.audit, b <- end.audit :: end.audit[a].request == end.audit[b].request ==> a == b)
            && |Matching(end.audit, AuditOf(t))| <= |InFlight(t, atBatch)| - |InFlight(t, end)|
  {
    var atBatch := After(t, s1, toBatch);
    ErasedRun(t, s1, toBatch);
    ShortBatchDrains(t, atBatch, batch);
    var drained := Apply(t, atBatch, PurgeAuditBatch(batch));
    OnlyFromPersists(t, drained, more, InFlight(t, atBatch));
    LateRequestsCoverRows(t, After(t, drained, more), InFlight(t, atBatch));
  }

  lemma {:induction false} ErasedRun(t: TenantId, s0: State, steps: seq<Step>)
    requires Consistent(s0) && Erased(t, s0) && IsRun(t, s0, steps)
    ensures Consistent(After(t, s0, steps)) && Erased(t, After(t, s0, steps))
    ensures InFlight(t, After(t, s0, steps)) <= InFlight(t, s0)
  {
    if steps != [] {
      ErasedRun(t, s0, steps[..|steps| - 1]);
      StepKeepsConsistent(t, After(t, s0, steps[..|steps| - 1]), steps[|steps| - 1]);
      ErasureIsFinal(t, After(t, s0, steps[..|steps| - 1]), steps[|steps| - 1]);
    }
  }

  // ---------------------------------------------------------------------------------------------
  // What `complete` is worth.
  // ---------------------------------------------------------------------------------------------

  /** From the tenant-row step on, a purge runs on an erased tenant; a later purge of it always does. */
  ghost predicate StageErased(t: TenantId, s: State) {
    s.stage.Audit? || s.stage.Verify? || s.stage.Finished? ==> Erased(t, s)
  }

  lemma {:induction false} StagesAreErased(t: TenantId, s0: State, steps: seq<Step>)
    requires Consistent(s0) && t in s0.used && s0.stage.Idle? && IsRun(t, s0, steps)
    ensures var s := After(t, s0, steps); Consistent(s) && t in s.used && StageErased(t, s)
  {
    if steps != [] {
      var before, step := After(t, s0, steps[..|steps| - 1]), steps[|steps| - 1];
      StagesAreErased(t, s0, steps[..|steps| - 1]);
      StepKeepsConsistent(t, before, step);
      if Erased(t, before) { ErasureIsFinal(t, before, step); }
    }
  }

  /** Of the nine counts on an erased tenant, only the audit count can be other than zero. */
  lemma ErasedCounts(t: TenantId, s: State, i: nat)
    requires Erased(t, s) && i <= 8
    ensures i != 7 ==> CountNo(s, t, i) == 0
    ensures i == 7 ==> CountNo(s, t, i) == |Matching(s.audit, AuditOf(t))|
  {
    assert forall table :: Matching(s.rows, Of(table, t)) == {};
  }

  /** What the verification pass has added up before the audit count: nothing. */
  ghost predicate TallyOk(t: TenantId, s: State) {
    && (s.stage.Verify? ==> s.stage.counted <= 8)
    && (s.stage.Verify? && s.stage.counted <= 7 ==> s.stage.remaining == 0)
  }

  lemma {:induction false} TallyHolds(t: TenantId, s0: State, steps: seq<Step>)
    requires Consistent(s0) && t in s0.used && s0.stage.Idle? && IsRun(t, s0, steps)
    ensures TallyOk(t, After(t, s0, steps))
  {
    if steps != [] {
      var before, step := After(t, s0, steps[..|steps| - 1]), steps[|steps| - 1];
      StagesAreErased(t, s0, steps[..|steps| - 1]);
      TallyHolds(t, s0, steps[..|steps| - 1]);
      if step.PurgeCount? { ErasedCounts(t, before, before.stage.counted); }
    }
  }

  /** Of one pass: the count step that reads the audit table decides the tally, and the last count reports it. */
  lemma AuditCountDecides(t: TenantId, s0: State, steps: seq<Step>)
    requires Consistent(s0) && t in s0.used && s0.stage.Idle? && IsRun(t, s0, steps)
    requires After(t, s0, steps).stage.Verify?
    ensures var s := After(t, s0, steps);
            var s' := Apply(t, s, PurgeCount);
            && Erased(t, s)
            && (s.stage.counted == 7 ==>
                  && s'.stage == Verify(8, |Matching(s.audit, AuditOf(t))|)
                  && (s'.stage.remaining == 0 ==> OnlyFrom(t, s', InFlight(t, s))))
            && (s.stage.counted == 8 ==> s'.stage == Finished(s.stage.remaining == 0))
  {
    StagesAreErased(t, s0, steps);
    TallyHolds(t, s0, steps);
    var s := After(t, s0, steps);
    StepKeepsConsistent(t, s, PurgeCount);
    ErasedCounts(t, s, s.stage.counted);
    if s.stage.counted == 7 && |Matching(s.audit, AuditOf(t))| == 0 {
      assert forall a <- s.audit :: s.audit[a].tenantId == t ==> a in Matching(s.audit, AuditOf(t));
    }
  }

  /** Step n reads the audit table for the report that the run ends with, or is about to. */
  ghost predicate CountsAudit(t: TenantId, s0: State, steps: seq<Step>, n: nat) {
    && n < |steps| && steps[n] == PurgeCount && IsRun(t, s0, steps[..n])
    && After(t, s0, steps[..n]).stage.Verify? && After(t, s0, steps[..n]).stage.counted == 7
    && forall j | n < j < |steps| :: !steps[j].PurgeStart?
  }

  ghost predicate NoAuditRow(t: TenantId, s: State) { Matching(s.audit, AuditOf(t)) == {} }

  /** What a pass past its audit count says: None before that. */
  function Verdict(stage: Stage): Option<bool> {
    match stage
    case Verify(counted, remaining) => if counted == 8 then Some(remaining == 0) else None
    case Finished(complete) => Some(complete)
    case _ => None
  }

  lemma VerdictStep(t: TenantId, s: State, step: Step)
    requires Enabled(t, s, step) && TallyOk(t, s) && StageErased(t, s) && Verdict(Apply(t, s, step).stage).Some?
    ensures !step.PurgeStart?
    ensures (step.PurgeCount? && s.stage.counted == 7) || Verdict(s.stage) == Verdict(Apply(t, s, step).stage)
  {
    if step.PurgeCount? { ErasedCounts(t, s, s.stage.counted); }
  }

  lemma {:induction false} VerdictWasCounted(t: TenantId, s0: State, steps: seq<Step>)
    requires Consistent(s0) && t in s0.used && s0.stage.Idle? && IsRun(t, s0, steps)
    requires Verdict(After(t, s0, steps).stage).Some?
    ensures exists n: nat :: CountsAudit(t, s0, steps, n) && CountHolds(t, s0, steps, n)
  {
    var last := |steps| - 1;
    var earlier, step := steps[..last], steps[last];
    var before := After(t, s0, earlier);
    assert earlier + [step] == steps;
    StagesAreErased(t, s0, earlier);
    TallyHolds(t, s0, earlier);
    VerdictStep(t, before, step);
    if step.PurgeCount? && before.stage.counted == 7 {
      VerdictBegins(t, s0, earlier);
    } else {
      VerdictWasCounted(t, s0, earlier);
      var n: nat :| CountsAudit(t, s0, earlier, n) && CountHolds(t, s0, earlier, n);
      VerdictCarries(t, s0, earlier, step, n);
    }
  }

  lemma VerdictBegins(t: TenantId, s0: State, earlier: seq<Step>)
    requires Consistent(s0) && t in s0.used && s0.stage.Idle? && IsRun(t, s0, earlier)
    requires After(t, s0, earlier).stage.Verify? && After(t, s0, earlier).stage.counted == 7
    requires IsRun(t, s0, earlier + [PurgeCount])
    requires After(t, s0, earlier + [PurgeCount]) == Apply(t, After(t, s0, earlier), PurgeCount)
    ensures CountsAudit(t, s0, earlier + [PurgeCount], |earlier|) && CountHolds(t, s0, earlier + [PurgeCount], |earlier|)
  {
    assert (earlier + [PurgeCount])[..|earlier|] == earlier;
    AuditCountDecides(t, s0, earlier);
  }

  lemma VerdictCarries(t: TenantId, s0: State, earlier: seq<Step>, step: Step, n: nat)
    requires IsRun(t, s0, earlier) && IsRun(t, s0, earlier + [step])
    requires Enabled(t, After(t, s0, earlier), step) && !step.PurgeStart?
    requires After(t, s0, earlier + [step]) == Apply(t, After(t, s0, earlier), step)
    requires Verdict(After(t, s0, earlier).stage) == Verdict(Apply(t, After(t, s0, earlier), step).stage)
    requires CountsAudit(t, s0, earlier, n) && CountHolds(t, s0, earlier, n)
    ensures CountsAudit(t, s0, earlier + [step], n) && CountHolds(t, s0, earlier + [step], n)
  {
    var steps, before := earlier + [step], After(t, s0, earlier);
    assert steps[..n] == earlier[..n];
    var late := InFlight(t, After(t, s0, earlier[..n]));
    if OnlyFrom(t, before, late) {
      AfterOne(t, before, step);
      OnlyFromPersists(t, before, [step], late);
    }
  }

  lemma AfterOne(t: TenantId, s: State, step: Step)
    requires Enabled(t, s, step)
    ensures IsRun(t, s, [step]) && After(t, s, [step]) == Apply(t, s, step)
  {
    assert [step][..0] == [];
  }

  /** The verdict is what count n read; and if that was none, only the requests then in flight can have left a row since. */
  ghost predicate CountHolds(t: TenantId, s0: State, steps: seq<Step>, n: nat)
    requires IsRun(t, s0, steps) && n <= |steps| && IsRun(t, s0, steps[..n])
  {
    var atCount, end := After(t, s0, steps[..n]), After(t, s0, steps);
    && (Verdict(end.stage) == Some(true) <==> NoAuditRow(t, atCount))
    && (NoAuditRow(t, atCount) ==> OnlyFrom(t, end, InFlight(t, atCount)))
  }

  /**
    What the report means, in every run from an idle purge: it was decided by one count of the audit
    table in that pass, complete iff the tenant had no row there at that moment; and then all rows
    that it has now, or will have however the run goes on, come from requests in flight at that count.
   */
  lemma CompleteMeansAuditWasEmpty(t: TenantId, s0: State, steps: seq<Step>, more: seq<Step>)
    requires Consistent(s0) && t in s0.used && s0.stage.Idle? && IsRun(t, s0, steps)
    requires After(t, s0, steps).stage.Finished? && IsRun(t, After(t, s0, steps), more)
    ensures exists n: nat ::
      && CountsAudit(t, s0, steps, n)
      && var atCount := After(t, s0, steps[..n]);
         && (After(t, s0, steps).stage.complete <==> NoAuditRow(t, atCount))
         && (NoAuditRow(t, atCount) ==> OnlyFrom(t, After(t, After(t, s0, steps), more), InFlight(t, atCount)))
  {
    VerdictWasCounted(t, s0, steps);
    var n: nat :| CountsAudit(t, s0, steps, n) && CountHolds(t, s0, steps, n);
    var atCount, end := After(t, s0, steps[..n]), After(t, s0, steps);
    if NoAuditRow(t, atCount) { OnlyFromPersists(t, end, more, InFlight(t, atCount)); }
  }

  // ---------------------------------------------------------------------------------------------
  // Running it again.
  // ---------------------------------------------------------------------------------------------

  /**
    An erased tenant with nothing in flight and at most n audit rows; and if a purge has been started
    since, it is one that will find nothing left.
   */
  ghost predicate Rerun(t: TenantId, s: State, n: nat, started: bool) {
    && Erased(t, s) && Consistent(s) && InFlight(t, s) == {}
    && |Matching(s.audit, AuditOf(t))| <= n
    && (started ==> Draining(t, s, n))
  }

  ghost predicate Draining(t: TenantId, s: State, n: nat) {
    match s.stage
    case Audit(k) => k < MAX_BATCHES && |Matching(s.audit, AuditOf(t))| + k * DELETE_BATCH_SIZE <= n
    case Verify(i, remaining) => i <= 8 && remaining == 0 && Matching(s.audit, AuditOf(t)) == {}
    case Finished(complete) => complete
    case _ => true
  }

  lemma AuditOnlyShrinks(t: TenantId, s: State, step: Step)
    requires Consistent(s) && Erased(t, s) && InFlight(t, s) == {} && Enabled(t, s, step)
    ensures Matching(Apply(t, s, step).audit, AuditOf(t)) <= Matching(s.audit, AuditOf(t))
  {
    assert forall r <- s.requests :: s.requests[r] == Request(t, Authenticated) ==> r in InFlight(t, s);
  }

  lemma RerunAuditBatch(t: TenantId, s: State, batch: set<AuditId>, n: nat)
    requires Rerun(t, s, n, true) && n < BATCH_CAP && Enabled(t, s, PurgeAuditBatch(batch))
    ensures Draining(t, Apply(t, s, PurgeAuditBatch(batch)), n)
  {
    var step := PurgeAuditBatch(batch);
    Cardinality(Matching(s.audit, AuditOf(t)), batch);
    assert Matching(Apply(t, s, step).audit, AuditOf(t)) == Matching(s.audit, AuditOf(t)) - batch;
    if |batch| < DELETE_BATCH_SIZE { ShortBatchDrains(t, s, batch); }
  }

  lemma RerunStep(t: TenantId, s: State, step: Step, n: nat, started: bool)
    requires Rerun(t, s, n, started) && n < BATCH_CAP && Enabled(t, s, step)
    ensures Rerun(t, Apply(t, s, step), n, started || step.PurgeStart?)
  {
    StepKeepsConsistent(t, s, step);
    ErasureIsFinal(t, s, step);
    AuditOnlyShrinks(t, s, step);
    Cardinality(Matching(s.audit, AuditOf(t)), Matching(Apply(t, s, step).audit, AuditOf(t)));
    if started {
      if step.PurgeAuditBatch? { RerunAuditBatch(t, s, step.auditBatch, n); }
      if step.PurgeCount? { ErasedCounts(t, s, s.stage.counted); }
    }
  }

  predicate Started(steps: seq<Step>) { exists step <- steps :: step.PurgeStart? }

  /**
    Running it again is the fix. Take any moment at which the tenant row is gone, its late requests have
    ended and fewer than 50,000,000 audit rows remain, whatever an earlier purge reported or has yet to:
    every purge started from then on that finishes reports complete.
   */
  lemma {:induction false} RerunCompletes(t: TenantId, s0: State, steps: seq<Step>)
    requires Consistent(s0) && Erased(t, s0) && InFlight(t, s0) == {}
    requires |Matching(s0.audit, AuditOf(t))| < BATCH_CAP && IsRun(t, s0, steps)
    ensures Rerun(t, After(t, s0, steps), |Matching(s0.audit, AuditOf(t))|, Started(steps))
    ensures Started(steps) && After(t, s0, steps).stage.Finished? ==> After(t, s0, steps).stage.complete
  {
    if steps != [] {
      var earlier, step := steps[..|steps| - 1], steps[|steps| - 1];
      RerunCompletes(t, s0, earlier);
      RerunStep(t, After(t, s0, earlier), step, |Matching(s0.audit, AuditOf(t))|, Started(earlier));
      assert steps == earlier + [step];
      assert Started(steps) <==> Started(earlier) || step.PurgeStart?;
    }
  }

  /** In particular after a purge, complete or not, of a tenant that was live when it began. */
  lemma SecondPurgeCompletes(t: TenantId, s0: State, first: seq<Step>, second: seq<Step>)
    requires Consistent(s0) && t in s0.used && s0.stage.Idle? && IsRun(t, s0, first)
    requires After(t, s0, first).stage.Finished? && InFlight(t, After(t, s0, first)) == {}
    requires |Matching(After(t, s0, first).audit, AuditOf(t))| < BATCH_CAP
    requires IsRun(t, After(t, s0, first), second) && Started(second)
    ensures var end := After(t, After(t, s0, first), second); end.stage.Finished? ==> end.stage.complete
  {
    StagesAreErased(t, s0, first);
    RerunCompletes(t, After(t, s0, first), second);
  }

  // ---------------------------------------------------------------------------------------------
  // A purge ends.
  // ---------------------------------------------------------------------------------------------

  predicate PurgeMoves(step: Step) {
    step.PurgeBatch? || step.PurgeChains? || step.PurgeTenantRow? || step.PurgeAuditBatch? || step.PurgeCount?
  }

  predicate StageOk(stage: Stage) {
    match stage
    case Deliveries(k) => k < MAX_BATCHES
    case Events(k) => k < MAX_BATCHES
    case Audit(k) => k < MAX_BATCHES
    case Verify(counted, _) => counted <= 8
    case _ => true
  }

  /** How many of its own steps a purge at this stage has left at most. */
  function Left(stage: Stage): nat
    requires StageOk(stage)
  {
    match stage
    case Deliveries(k) => PURGE_STEPS - k
    case Events(k) => PURGE_STEPS - MAX_BATCHES - k
    case Chains => MAX_BATCHES + 11
    case TenantRow => MAX_BATCHES + 10
    case Audit(k) => MAX_BATCHES + 9 - k
    case Verify(counted, _) => 9 - counted
    case _ => 0
  }

  /** Three batch loops, the chains, the tenant row and nine counts. */
  const PURGE_STEPS: nat := 3 * MAX_BATCHES + 11

  lemma PurgeStepIsProgress(t: TenantId, s: State, step: Step)
    requires Enabled(t, s, step) && StageOk(s.stage)
    ensures StageOk(Apply(t, s, step).stage)
    ensures PurgeMoves(step) ==> Left(Apply(t, s, step).stage) < Left(s.stage)
    ensures !PurgeMoves(step) && !step.PurgeStart? ==> Left(Apply(t, s, step).stage) == Left(s.stage)
    ensures step.PurgeStart? ==> Left(Apply(t, s, step).stage) == PURGE_STEPS && Left(s.stage) == 0
  {
  }

  function Moves(steps: seq<Step>): nat {
    if steps == [] then 0 else Moves(steps[..|steps| - 1]) + if PurgeMoves(steps[|steps| - 1]) then 1 else 0
  }

  function Starts(steps: seq<Step>): nat {
    if steps == [] then 0 else Starts(steps[..|steps| - 1]) + if steps[|steps| - 1].PurgeStart? then 1 else 0
  }

  /** However requests and writers interleave, every start of a purge is worth at most 30,011 steps of its own. */
  lemma {:induction false} PurgesAreBounded(t: TenantId, s0: State, steps: seq<Step>)
    requires StageOk(s0.stage) && IsRun(t, s0, steps)
    ensures StageOk(After(t, s0, steps).stage)
    ensures Moves(steps) + Left(After(t, s0, steps).stage) <= Left(s0.stage) + 30_011 * Starts(steps)
  {
    if steps != [] {
      PurgesAreBounded(t, s0, steps[..|steps| - 1]);
      PurgeStepIsProgress(t, After(t, s0, steps[..|steps| - 1]), steps[|steps| - 1]);
    }
  }

  /** And until it has finished its next step is always possible. */
  lemma PurgeIsNeverStuck(t: TenantId, s: State)
    requires !s.stage.Idle? && !s.stage.Finished?
    ensures exists step :: PurgeMoves(step) && Enabled(t, s, step)
  {
    match s.stage
    case Deliveries(_) =>
      var batch := SomeBatch(s.rows, Of(WebhookDeliveries, t));
      assert Enabled(t, s, PurgeBatch(batch));
    case Events(_) =>
      var batch := SomeBatch(s.rows, Of(WebhookEvents, t));
      assert Enabled(t, s, PurgeBatch(batch));
    case Chains => assert Enabled(t, s, PurgeChains);
    case TenantRow => assert Enabled(t, s, PurgeTenantRow);
    case Audit(_) =>
      var batch := SomeBatch(s.audit, AuditOf(t));
      assert Enabled(t, s, PurgeAuditBatch(batch));
    case Verify(_, _) => assert Enabled(t, s, PurgeCount);
  }

  lemma SomeBatch<Id, Row>(rows: map<Id, Row>, pred: Row -> bool) returns (batch: set<Id>)
    ensures IsBatch(rows, pred, batch)
  {
    batch := SubsetOfSize(Matching(rows, pred), Min(DELETE_BATCH_SIZE, |Matching(rows, pred)|));
  }

  lemma SubsetOfSize<T>(whole: set<T>, n: nat) returns (part: set<T>)
    requires n <= |whole|
    ensures part <= whole && |part| == n
  {
    part := {};
    var rest := whole;
    while |part| < n
      invariant part !! rest && part + rest == whole && |part| <= n
    {
      assert |whole| == |part| + |rest|;
      var x :| x in rest;
      part, rest := part + {x}, rest - {x};
    }
  }

  // ---------------------------------------------------------------------------------------------
  // The procedure on its own: no other writers.
  // ---------------------------------------------------------------------------------------------

  datatype Counts = Counts(
    apiKeys: nat, appleCredentials: nat, googleCredentials: nat, webhookConfigs: nat,
    webhookEvents: nat, webhookDeliveries: nat, googlePurchaseChains: nat, validationAudit: nat, tenant: nat)
  {
    function Total(): nat {
      apiKeys + appleCredentials + googleCredentials + webhookConfigs
      + webhookEvents + webhookDeliveries + googlePurchaseChains + validationAudit + tenant
    }
  }

  /** The report; a dry run claims nothing about what is left. */
  datatype Report = Report(counts: Counts, remainingByTable: Option<Counts>, remaining: Option<nat>, complete: Option<bool>)

  function CountAll(tenants: set<TenantId>, rows: map<RowId, Row>, audit: map<AuditId, AuditRow>, t: TenantId): Counts {
    Counts(|Matching(rows, Of(ApiKeys, t))|, |Matching(rows, Of(AppleCredentials, t))|,
           |Matching(rows, Of(GoogleCredentials, t))|, |Matching(rows, Of(WebhookConfigs, t))|,
           |Matching(rows, Of(WebhookEvents, t))|, |Matching(rows, Of(WebhookDeliveries, t))|,
           |Matching(rows, Of(GooglePurchaseChains, t))|, |Matching(audit, AuditOf(t))|,
           if t in tenants then 1 else 0)
  }

  ghost function RowsIn(rows: map<RowId, Row>, table: Table, t: TenantId): set<RowId> {
    set id | id in rows && rows[id].table == table && rows[id].tenantId == t
  }

  ghost function AuditRows(audit: map<AuditId, AuditRow>, t: TenantId): set<AuditId> {
    set a | a in audit && audit[a].tenantId == t
  }

  /** Each count is the number of the tenant's rows in the table it is named after. */
  ghost predicate CountsRows(c: Counts, tenants: set<TenantId>, rows: map<RowId, Row>, audit: map<AuditId, AuditRow>, t: TenantId) {
    && c.apiKeys == |RowsIn(rows, ApiKeys, t)|
    && c.appleCredentials == |RowsIn(rows, AppleCredentials, t)|
    && c.googleCredentials == |RowsIn(rows, GoogleCredentials, t)|
    && c.webhookConfigs == |RowsIn(rows, WebhookConfigs, t)|
    && c.webhookEvents == |RowsIn(rows, WebhookEvents, t)|
    && c.webhookDeliveries == |RowsIn(rows, WebhookDeliveries, t)|
    && c.googlePurchaseChains == |RowsIn(rows, GooglePurchaseChains, t)|
    && c.validationAudit == |AuditRows(audit, t)|
    && c.tenant == (if t in tenants then 1 else 0)
  }

  /** The same of the rows before, but each batched delete reports at most 50,000,000. */
  ghost predicate DeletionsOf(c: Counts, tenants: set<TenantId>, rows: map<RowId, Row>, audit: map<AuditId, AuditRow>, t: TenantId) {
    && c.apiKeys == |RowsIn(rows, ApiKeys, t)|
    && c.appleCredentials == |RowsIn(rows, AppleCredentials, t)|
    && c.googleCredentials == |RowsIn(rows, GoogleCredentials, t)|
    && c.webhookConfigs == |RowsIn(rows, WebhookConfigs, t)|
    && c.webhookEvents == Min(|RowsIn(rows, WebhookEvents, t)|, 50_000_000)
    && c.webhookDeliveries == Min(|RowsIn(rows, WebhookDeliveries, t)|, 50_000_000)
    && c.googlePurchaseChains == |RowsIn(rows, GooglePurchaseChains, t)|
    && c.validationAudit == Min(|AuditRows(audit, t)|, 50_000_000)
    && c.tenant == (if t in tenants then 1 else 0)
  }

  /** Exactly the tenant's rows are gone, and of the audit rows only some of the tenant's. */
  ghost predicate OnlyTenantGone(rows: map<RowId, Row>, audit: map<AuditId, AuditRow>,
                                 rows': map<RowId, Row>, audit': map<AuditId, AuditRow>, t: TenantId) {
    && (forall id :: id in rows' <==> id in rows && rows[id].tenantId != t)
    && (forall id <- rows' :: rows'[id] == rows[id])
    && (forall a <- audit' :: a in audit && audit'[a] == audit[a])
    && (forall a <- audit | audit[a].tenantId != t :: a in audit')
  }

  /** What the recount of a purge reports: nothing is left but the audit rows beyond the cap. */
  ghost predicate RecountOf(report: Report, audit: map<AuditId, AuditRow>,
                            tenants': set<TenantId>, rows': map<RowId, Row>, audit': map<AuditId, AuditRow>, t: TenantId) {
    && |AuditRows(audit', t)| == |AuditRows(audit, t)| - Min(|AuditRows(audit, t)|, 50_000_000)
    && report.remainingByTable == Some(Counts(0, 0, 0, 0, 0, 0, 0, |AuditRows(audit', t)|, 0))
    && CountsRows(report.remainingByTable.value, tenants', rows', audit', t)
    && report.remaining == Some(|AuditRows(audit', t)|)
    && report.complete == Some(|AuditRows(audit', t)| == 0)
  }

  lemma RecountFinds(tenants: set<TenantId>, rows: map<RowId, Row>, audit: map<AuditId, AuditRow>, t: TenantId)
    requires t !in tenants && forall id <- rows :: rows[id].tenantId != t
    ensures var after := CountAll(tenants, rows, audit, t);
            && after == Counts(0, 0, 0, 0, 0, 0, 0, |Matching(audit, AuditOf(t))|, 0)
            && after.Total() == |Matching(audit, AuditOf(t))|
            && CountsRows(after, tenants, rows, audit, t)
  {
    NothingCounted(tenants, rows, audit, t);
    CountAllCounts(tenants, rows, audit, t);
  }

  lemma OnlyItsRowsGone(rows: map<RowId, Row>, audit: map<AuditId, AuditRow>,
                        rows': map<RowId, Row>, audit': map<AuditId, AuditRow>, t: TenantId)
    requires rows' == Rest(rows, (r: Row) => r.tenantId == t) && Trimmed(audit, audit', AuditOf(t))
    ensures OnlyTenantGone(rows, audit, rows', audit', t)
  {
  }

  /** Counts for the cascade-only tables from the pre-count, the rest from the deletes themselves. */
  function ReportOf(counts: Counts, eventCount: nat, deliveryCount: nat, chainCount: nat, auditCount: nat, tenantCount: nat,
                    remaining: Counts): Report {
    Report(counts.(webhookEvents := eventCount, webhookDeliveries := deliveryCount, googlePurchaseChains := chainCount,
                   validationAudit := auditCount, tenant := tenantCount),
           Some(remaining), Some(remaining.Total()), Some(remaining.Total() == 0))
  }

  lemma DeletionsHold(before: Counts, eventCount: nat, deliveryCount: nat, chainCount: nat, auditCount: nat, tenantCount: nat,
                      after: Counts, tenants: set<TenantId>, rows: map<RowId, Row>, audit: map<AuditId, AuditRow>, t: TenantId)
    requires CountsRows(before, tenants, rows, audit, t)
    requires eventCount == Min(before.webhookEvents, BATCH_CAP) && deliveryCount == Min(before.webhookDeliveries, BATCH_CAP)
    requires chainCount == before.googlePurchaseChains && tenantCount == before.tenant
    requires auditCount == Min(before.validationAudit, BATCH_CAP)
    ensures DeletionsOf(ReportOf(before, eventCount, deliveryCount, chainCount, auditCount, tenantCount, after).counts,
                        tenants, rows, audit, t)
  {
  }

  lemma RecountHolds(report: Report, after: Counts, audit: map<AuditId, AuditRow>,
                     tenants': set<TenantId>, rows': map<RowId, Row>, audit': map<AuditId, AuditRow>, t: TenantId)
    requires CountsRows(after, tenants', rows', audit', t)
    requires after == Counts(0, 0, 0, 0, 0, 0, 0, after.validationAudit, 0) && after.Total() == after.validationAudit
    requires after.validationAudit == |AuditRows(audit, t)| - Min(|AuditRows(audit, t)|, BATCH_CAP)
    requires report.remainingByTable == Some(after) && report.remaining == Some(after.Total())
    requires report.complete == Some(after.Total() == 0)
    ensures RecountOf(report, audit, tenants', rows', audit', t)
  {
  }
 lemma TableCount(rows: map<RowId, Row>, table: Table, t: TenantId)
    ensures Matching(rows, Of(table, t)) == RowsIn(rows, table, t)
  {
  }

  lemma AuditByTenant(audit: map<AuditId, AuditRow>, t: TenantId)
    ensures Matching(audit, AuditOf(t)) == AuditRows(audit, t)
  {
  }

  lemma CountAllCounts(tenants: set<TenantId>, rows: map<RowId, Row>, audit: map<AuditId, AuditRow>, t: TenantId)
    ensures CountsRows(CountAll(tenants, rows, audit, t), tenants, rows, audit, t)
  {
    TableCount(rows, ApiKeys, t);
    TableCount(rows, AppleCredentials, t);
    TableCount(rows, GoogleCredentials, t);
    TableCount(rows, WebhookConfigs, t);
    TableCount(rows, WebhookEvents, t);
    TableCount(rows, WebhookDeliveries, t);
    TableCount(rows, GooglePurchaseChains, t);
    AuditByTenant(audit, t);
  }

  ghost predicate AllReferencesHold(tenants: set<TenantId>, rows: map<RowId, Row>) {
    forall id <- rows :: ReferencesHold(tenants, rows, rows[id])
  }

  /** Some of the tenant's rows are gone, of the given tables; every other row is as it was. */
  ghost predicate Shrunk(before: map<RowId, Row>, after: map<RowId, Row>, t: TenantId, tables: set<Table>) {
    && (forall id <- after :: id in before && after[id] == before[id])
    && (forall id <- before :: id !in after ==> before[id].tenantId == t && before[id].table in tables)
  }

  lemma SameTable(before: map<RowId, Row>, after: map<RowId, Row>, t: TenantId, tables: set<Table>, table: Table)
    requires Shrunk(before, after, t, tables) && table !in tables
    ensures Matching(after, Of(table, t)) == Matching(before, Of(table, t))
  {
  }

  class Store {
    var tenants: set<TenantId>
    var rows: map<RowId, Row>
    var audit: map<AuditId, AuditRow>

    /**
      Deliveries, events and chains by themselves, then the tenant row with its cascade, then the
      audit rows; each count from its own delete, the rest from the pre-count. The purge is
      complete iff the audit rows fit one batch loop, whatever the other tables held and whether
      or not the tenant row was still there.
     */
    method PurgeTenantData(t: TenantId, dryRun: bool) returns (report: Report)
      requires AllReferencesHold(tenants, rows)
      modifies this
      ensures AllReferencesHold(tenants, rows)
      ensures dryRun ==>
                && CountsRows(report.counts, tenants, rows, audit, t) && report == Report(report.counts, None, None, None)
                && tenants == old(tenants) && rows == old(rows) && audit == old(audit)
      ensures !dryRun ==> tenants == old(tenants) - {t} && OnlyTenantGone(old(rows), old(audit), rows, audit, t)
      ensures !dryRun ==> DeletionsOf(report.counts, old(tenants), old(rows), old(audit), t)
      ensures !dryRun ==> RecountOf(report, old(audit), tenants, rows, audit, t)
      ensures !dryRun ==> (report.complete == Some(true) <==> |AuditRows(old(audit), t)| <= 50_000_000)
    {
      var counts := CountAll(tenants, rows, audit, t);
      CountAllCounts(tenants, rows, audit, t);
      if dryRun { return Report(counts, None, None, None); }

      var deliveryCount, eventCount, chainCount, tenantCount, auditCount := DeleteSteps(t);
      var remainingByTable := CountAll(tenants, rows, audit, t);
      RecountFinds(tenants, rows, audit, t);
      report := ReportOf(counts, eventCount, deliveryCount, chainCount, auditCount, tenantCount, remainingByTable);
      DeletionsHold(counts, eventCount, deliveryCount, chainCount, auditCount, tenantCount, remainingByTable,
                    old(tenants), old(rows), old(audit), t);
      RecountHolds(report, remainingByTable, old(audit), tenants, rows, audit, t);
    }

    /** Steps 1 to 3: the children, the tenant row with its cascade, the audit rows; each with its count. */
    method DeleteSteps(t: TenantId)
      returns (deliveryCount: nat, eventCount: nat, chainCount: nat, tenantCount: nat, auditCount: nat)
      requires AllReferencesHold(tenants, rows)
      modifies this
      ensures AllReferencesHold(tenants, rows)
      ensures tenants == old(tenants) - {t} && OnlyTenantGone(old(rows), old(audit), rows, audit, t)
      ensures deliveryCount == Min(|RowsIn(old(rows), WebhookDeliveries, t)|, 50_000_000)
      ensures eventCount == Min(|RowsIn(old(rows), WebhookEvents, t)|, 50_000_000)
      ensures chainCount == |RowsIn(old(rows), GooglePurchaseChains, t)|
      ensures tenantCount == if t in old(tenants) then 1 else 0
      ensures auditCount == Min(|AuditRows(old(audit), t)|, 50_000_000)
      ensures |Matching(audit, AuditOf(t))| == |AuditRows(old(audit), t)| - auditCount
    {
      TableCount(rows, WebhookDeliveries, t);
      TableCount(rows, WebhookEvents, t);
      TableCount(rows, GooglePurchaseChains, t);
      deliveryCount, eventCount, chainCount := PurgeChildren(t);
      LastRowsGo(old(tenants), old(rows), rows, t);
      tenantCount := if t in tenants then 1 else 0;
      tenants, rows := tenants - {t}, Without(rows, RowsOf(rows, t));
      AuditByTenant(audit, t);
      var auditLeft, total, full := DeleteInBatches(audit, AuditOf(t));
      audit, auditCount := auditLeft, total;
      OnlyItsRowsGone(old(rows), old(audit), rows, audit, t);
    }

    /** The big children, batched; the chains in one statement. */
    method PurgeChildren(t: TenantId) returns (deliveryCount: nat, eventCount: nat, chainCount: nat)
      requires AllReferencesHold(tenants, rows)
      modifies this`rows
      ensures Shrunk(old(rows), rows, t, {WebhookDeliveries, WebhookEvents, GooglePurchaseChains})
      ensures deliveryCount == Min(|Matching(old(rows), Of(WebhookDeliveries, t))|, BATCH_CAP)
      ensures eventCount == Min(|Matching(old(rows), Of(WebhookEvents, t))|, BATCH_CAP)
      ensures chainCount == |Matching(old(rows), Of(GooglePurchaseChains, t))|
    {
      var left, deliveries, atCap := DeleteInBatches(rows, Of(WebhookDeliveries, t));
      SameTable(rows, left, t, {WebhookDeliveries}, WebhookEvents);
      var kept, events, capped := DeleteInBatches(left, Of(WebhookEvents, t));
      DeliveriesFollowEvents(tenants, rows, left, kept, t);
      var rest := Without(left, left.Keys - kept.Keys);
      SameTable(rows, rest, t, {WebhookDeliveries, WebhookEvents}, GooglePurchaseChains);
      var chains := Matching(rest, Of(GooglePurchaseChains, t));
      ChainsGo(tenants, rows, rest, t);
      rows := Without(rest, chains);
      return deliveries, events, |chains|;
    }
  }

  /** With the tenant and its rows gone, only audit rows can be counted. */
  lemma NothingCounted(tenants: set<TenantId>, rows: map<RowId, Row>, audit: map<AuditId, AuditRow>, t: TenantId)
    requires t !in tenants && forall id <- rows :: rows[id].tenantId != t
    ensures CountAll(tenants, rows, audit, t) == Counts(0, 0, 0, 0, 0, 0, 0, |Matching(audit, AuditOf(t))|, 0)
    ensures CountAll(tenants, rows, audit, t).Total() == |Matching(audit, AuditOf(t))|
  {
    assert forall table :: Matching(rows, Of(table, t)) == {};
  }

  /** Nothing references a chain row. */
  lemma ChainsGo(tenants: set<TenantId>, start: map<RowId, Row>, rest: map<RowId, Row>, t: TenantId)
    requires AllReferencesHold(tenants, start) && Shrunk(start, rest, t, {WebhookDeliveries, WebhookEvents})
    ensures Shrunk(start, Without(rest, Matching(rest, Of(GooglePurchaseChains, t))), t,
                   {WebhookDeliveries, WebhookEvents, GooglePurchaseChains})
  {
  }

  lemma DeliveriesFollowEvents(tenants: set<TenantId>, start: map<RowId, Row>, left: map<RowId, Row>, kept: map<RowId, Row>, t: TenantId)
    requires AllReferencesHold(tenants, start) && Shrunk(start, left, t, {WebhookDeliveries})
    requires Trimmed(left, kept, Of(WebhookEvents, t))
    ensures Shrunk(start, Without(left, left.Keys - kept.Keys), t, {WebhookDeliveries, WebhookEvents})
  {
  }

  lemma LastRowsGo(tenants: set<TenantId>, start: map<RowId, Row>, rows: map<RowId, Row>, t: TenantId)
    requires AllReferencesHold(tenants, start)
    requires Shrunk(start, rows, t, {WebhookDeliveries, WebhookEvents, GooglePurchaseChains})
    ensures Without(rows, RowsOf(rows, t)) == Rest(start, (r: Row) => r.tenantId == t)
    ensures AllReferencesHold(tenants - {t}, Without(rows, RowsOf(rows, t)))
  {
  }
}
