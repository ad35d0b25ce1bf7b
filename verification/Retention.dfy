/** The retention sweep of app/services/retention/purge.ts, with no concurrent writers. */
module Retention {
  import opened Wrappers
  import opened BatchedDelete

  type EventId = string
  type DeliveryId = string
  type AuditId = string
  type ChainKey = (string, string)

  const DAY_MS: int := 24 * 60 * 60 * 1000

  datatype EventRow = EventRow(tenantId: string, receivedAt: int)
  datatype DeliveryRow = DeliveryRow(eventId: EventId, tenantId: string)
  datatype AuditRow = AuditRow(tenantId: string, createdAt: int)
  datatype ChainRow = ChainRow(previousToken: string, createdAt: int)

  /** An absent window means: keep forever. */
  datatype Policy = Policy(webhookEventDays: Option<int>, validationAuditDays: Option<int>, googleChainDays: Option<int>)

  datatype PurgeResult = PurgeResult(webhookEvents: nat, webhookDeliveries: nat, validationAudit: nat, googlePurchaseChains: nat)

  datatype Db = Db(
    events: map<EventId, EventRow>, deliveries: map<DeliveryId, DeliveryRow>,
    audit: map<AuditId, AuditRow>, chains: map<ChainKey, ChainRow>)

  /** The foreign key: every delivery's event exists. */
  ghost predicate ForeignKeysHold(db: Db) {
    forall d <- db.deliveries :: db.deliveries[d].eventId in db.events
  }

  /** The instant before which rows go, or None where the table is not swept. */
  function Cutoff(days: Option<int>, now: int): Option<int> {
    match days case None => None case Some(n) => Some(now - n * DAY_MS)
  }

  predicate Older(created: int, before: Option<int>) { before.Some? && created < before.value }

  function OldEvent(before: Option<int>): EventRow -> bool { (e: EventRow) => Older(e.receivedAt, before) }
  function OldAudit(before: Option<int>): AuditRow -> bool { (a: AuditRow) => Older(a.createdAt, before) }
  function OldChain(before: Option<int>): ChainRow -> bool { (c: ChainRow) => Older(c.createdAt, before) }

  function OfOldEvent(events: map<EventId, EventRow>, before: Option<int>): DeliveryRow -> bool {
    (d: DeliveryRow) => d.eventId in events && Older(events[d.eventId].receivedAt, before)
  }

  /** Filtering each configured table by its cutoff, deliveries with their events. */
  ghost function Swept(db: Db, policy: Policy, now: int): Db {
    var before := Cutoff(policy.webhookEventDays, now);
    Db(Rest(db.events, OldEvent(before)),
       Rest(db.deliveries, OfOldEvent(db.events, before)),
       Rest(db.audit, OldAudit(Cutoff(policy.validationAuditDays, now))),
       Rest(db.chains, OldChain(Cutoff(policy.googleChainDays, now))))
  }

  /** How many rows of each table are past their cutoff. */
  ghost function Expired(db: Db, policy: Policy, now: int): PurgeResult {
    var before := Cutoff(policy.webhookEventDays, now);
    PurgeResult(|Matching(db.events, OldEvent(before))|,
                |Matching(db.deliveries, OfOldEvent(db.events, before))|,
                |Matching(db.audit, OldAudit(Cutoff(policy.validationAuditDays, now)))|,
                |Matching(db.chains, OldChain(Cutoff(policy.googleChainDays, now)))|)
  }

  function Capped(r: PurgeResult): PurgeResult {
    PurgeResult(Min(r.webhookEvents, BATCH_CAP), Min(r.webhookDeliveries, BATCH_CAP),
                Min(r.validationAudit, BATCH_CAP), Min(r.googlePurchaseChains, BATCH_CAP))
  }

  class Store {
    var events: map<EventId, EventRow>
    var deliveries: map<DeliveryId, DeliveryRow>
    var audit: map<AuditId, AuditRow>
    var chains: map<ChainKey, ChainRow>

    function Contents(): Db
      reads this
    {
      Db(events, deliveries, audit, chains)
    }

    /** Deliveries first, so that they are counted; then the events, whose cascade takes what is left of theirs. */
    method PurgeWebhookEvents(before: int) returns (eventCount: nat, deliveryCount: nat)
      requires ForeignKeysHold(Contents())
      modifies this`events, this`deliveries
      ensures ForeignKeysHold(Contents())
      ensures EventsSwept(old(events), old(deliveries), events, deliveries, Some(before), eventCount, deliveryCount)
    {
      var rows, total, capped := DeleteInBatches(deliveries, OfOldEvent(events, Some(before)));
      var kept, removed, atCap := DeleteInBatches(events, OldEvent(Some(before)));
      CascadeTrims(Contents(), rows, kept, Some(before));
      deliveries, deliveryCount := Cascaded(rows, kept), total;
      events, eventCount := kept, removed;
    }

    /** The first window of a sweep. */
    method PurgeEventsWindow(policy: Policy, now: int) returns (eventCount: nat, deliveryCount: nat)
      requires ForeignKeysHold(Contents())
      modifies this`events, this`deliveries
      ensures ForeignKeysHold(Contents())
      ensures EventsSwept(old(events), old(deliveries), events, deliveries, Cutoff(policy.webhookEventDays, now),
                          eventCount, deliveryCount)
    {
      NoWindowNoSweep(Contents());
      eventCount, deliveryCount := 0, 0;
      if policy.webhookEventDays.Some? {
        eventCount, deliveryCount := PurgeWebhookEvents(now - policy.webhookEventDays.value * DAY_MS);
      }
    }

    /** The later two windows of a sweep, each on its own. */
    method PurgeAuditAndChains(policy: Policy, now: int) returns (auditCount: nat, chainCount: nat)
      modifies this`audit, this`chains
      ensures TableSwept(old(audit), audit, OldAudit(Cutoff(policy.validationAuditDays, now)), auditCount)
      ensures TableSwept(old(chains), chains, OldChain(Cutoff(policy.googleChainDays, now)), chainCount)
    {
      auditCount, chainCount := 0, 0;
      NothingSwept(audit, OldAudit(None));
      if policy.validationAuditDays.Some? {
        var rows, total, capped := DeleteInBatches(audit, OldAudit(Cutoff(policy.validationAuditDays, now)));
        audit, auditCount := rows, total;
      }
      NothingSwept(chains, OldChain(None));
      if policy.googleChainDays.Some? {
        var rows, total, capped := DeleteInBatches(chains, OldChain(Cutoff(policy.googleChainDays, now)));
        chains, chainCount := rows, total;
      }
    }

    /** One sweep: every configured window, each on its own. */
    method PurgeOnce(policy: Policy, now: int) returns (r: PurgeResult)
      requires ForeignKeysHold(Contents())
      modifies this
      ensures ForeignKeysHold(Contents())
      ensures r == Capped(Expired(old(Contents()), policy, now))
      ensures WithinCap(Expired(old(Contents()), policy, now)) ==> Contents() == Swept(old(Contents()), policy, now)
      ensures OnlyExpiredGone(old(Contents()), Contents(), policy, now)
      ensures SweptByAge(old(Contents()), Contents(), policy, now)
      ensures CountedByAge(old(Contents()), policy, now, r)
    {
      ghost var db := Contents();
      var eventCount, deliveryCount := PurgeEventsWindow(policy, now);
      var auditCount, chainCount := PurgeAuditAndChains(policy, now);
      r := PurgeResult(eventCount, deliveryCount, auditCount, chainCount);
      TablesMakeSweep(db, Contents(), policy, now, r);
      SweepIsByAge(db, Contents(), policy, now);
      CountIsByAge(db, policy, now);
    }
  }

  /** One table after its batched delete, with the count reported for it. */
  ghost predicate TableSwept<Id, Row>(table: map<Id, Row>, rows: map<Id, Row>, pred: Row -> bool, total: nat) {
    && Trimmed(table, rows, pred)
    && total == Min(|Matching(table, pred)|, BATCH_CAP)
    && (|Matching(table, pred)| <= BATCH_CAP ==> rows == Rest(table, pred))
  }

  /** The events, and the deliveries that go with them. */
  ghost predicate EventsSwept(events: map<EventId, EventRow>, deliveries: map<DeliveryId, DeliveryRow>,
                              keptEvents: map<EventId, EventRow>, keptDeliveries: map<DeliveryId, DeliveryRow>,
                              before: Option<int>, eventCount: nat, deliveryCount: nat)
  {
    var isOf := OfOldEvent(events, before);
    && TableSwept(events, keptEvents, OldEvent(before), eventCount)
    && Trimmed(deliveries, keptDeliveries, isOf)
    && deliveryCount == Min(|Matching(deliveries, isOf)|, BATCH_CAP)
    && (|Matching(events, OldEvent(before))| <= BATCH_CAP ==> keptDeliveries == Rest(deliveries, isOf))
  }

  lemma TablesMakeSweep(db: Db, after: Db, policy: Policy, now: int, r: PurgeResult)
    requires EventsSwept(db.events, db.deliveries, after.events, after.deliveries, Cutoff(policy.webhookEventDays, now),
                         r.webhookEvents, r.webhookDeliveries)
    requires TableSwept(db.audit, after.audit, OldAudit(Cutoff(policy.validationAuditDays, now)), r.validationAudit)
    requires TableSwept(db.chains, after.chains, OldChain(Cutoff(policy.googleChainDays, now)), r.googlePurchaseChains)
    ensures r == Capped(Expired(db, policy, now))
    ensures WithinCap(Expired(db, policy, now)) ==> after == Swept(db, policy, now)
    ensures OnlyExpiredGone(db, after, policy, now) && SweptWithinCaps(db, after, policy, now)
  {
  }

  // ---------------------------------------------------------------------------------------------
  // The sweep row by row, in milliseconds.
  // ---------------------------------------------------------------------------------------------

  /** A row created then is past a window of that many days; without a window none is. */
  predicate Past(created: int, days: Option<int>, now: int) {
    days.Some? && created < now - days.value * 86_400_000
  }

  ghost function PastEvents(db: Db, policy: Policy, now: int): set<EventId> {
    set e | e in db.events && Past(db.events[e].receivedAt, policy.webhookEventDays, now)
  }

  ghost function PastDeliveries(db: Db, policy: Policy, now: int): set<DeliveryId> {
    set d | d in db.deliveries && db.deliveries[d].eventId in PastEvents(db, policy, now)
  }

  ghost function PastAudit(db: Db, policy: Policy, now: int): set<AuditId> {
    set a | a in db.audit && Past(db.audit[a].createdAt, policy.validationAuditDays, now)
  }

  ghost function PastChains(db: Db, policy: Policy, now: int): set<ChainKey> {
    set c | c in db.chains && Past(db.chains[c].createdAt, policy.googleChainDays, now)
  }

  /** `after` is `rows` without some of `past`, and without all of it if that is at most 50,000,000 rows. */
  ghost predicate LosesPast<Id, Row>(rows: map<Id, Row>, after: map<Id, Row>, past: set<Id>, all: bool) {
    && (forall id <- after :: id in rows && after[id] == rows[id])
    && (forall id <- rows :: id !in after ==> id in past)
    && (all ==> forall id <- after :: id !in past)
  }

  /** Only rows past their window go, all of them within the cap; deliveries go by the age of their event. */
  ghost predicate SweptByAge(db: Db, after: Db, policy: Policy, now: int) {
    && LosesPast(db.events, after.events, PastEvents(db, policy, now), |PastEvents(db, policy, now)| <= 50_000_000)
    && LosesPast(db.deliveries, after.deliveries, PastDeliveries(db, policy, now), |PastEvents(db, policy, now)| <= 50_000_000)
    && LosesPast(db.audit, after.audit, PastAudit(db, policy, now), |PastAudit(db, policy, now)| <= 50_000_000)
    && LosesPast(db.chains, after.chains, PastChains(db, policy, now), |PastChains(db, policy, now)| <= 50_000_000)
  }

  /** Each count is the number of its table's rows past the window, up to 50,000,000. */
  ghost predicate CountedByAge(db: Db, policy: Policy, now: int, r: PurgeResult) {
    && r.webhookEvents == Min(|PastEvents(db, policy, now)|, 50_000_000)
    && r.webhookDeliveries == Min(|PastDeliveries(db, policy, now)|, 50_000_000)
    && r.validationAudit == Min(|PastAudit(db, policy, now)|, 50_000_000)
    && r.googlePurchaseChains == Min(|PastChains(db, policy, now)|, 50_000_000)
  }

  lemma PastIsMatching(db: Db, policy: Policy, now: int)
    ensures PastEvents(db, policy, now) == Matching(db.events, OldEvent(Cutoff(policy.webhookEventDays, now)))
    ensures PastDeliveries(db, policy, now) == Matching(db.deliveries, OfOldEvent(db.events, Cutoff(policy.webhookEventDays, now)))
    ensures PastAudit(db, policy, now) == Matching(db.audit, OldAudit(Cutoff(policy.validationAuditDays, now)))
    ensures PastChains(db, policy, now) == Matching(db.chains, OldChain(Cutoff(policy.googleChainDays, now)))
  {
  }

  lemma CountIsByAge(db: Db, policy: Policy, now: int)
    ensures CountedByAge(db, policy, now, Capped(Expired(db, policy, now)))
  {
    PastIsMatching(db, policy, now);
  }

  lemma TableByAge<Id, Row>(rows: map<Id, Row>, after: map<Id, Row>, pred: Row -> bool, past: set<Id>, all: bool)
    requires Trimmed(rows, after, pred) && past == Matching(rows, pred) && (all ==> after == Rest(rows, pred))
    ensures LosesPast(rows, after, past, all)
  {
  }

  lemma SweepIsByAge(db: Db, after: Db, policy: Policy, now: int)
    requires OnlyExpiredGone(db, after, policy, now) && SweptWithinCaps(db, after, policy, now)
    ensures SweptByAge(db, after, policy, now)
  {
    var before := Cutoff(policy.webhookEventDays, now);
    PastIsMatching(db, policy, now);
    var within := |PastEvents(db, policy, now)| <= 50_000_000;
    TableByAge(db.events, after.events, OldEvent(before), PastEvents(db, policy, now), within);
    TableByAge(db.deliveries, after.deliveries, OfOldEvent(db.events, before), PastDeliveries(db, policy, now), within);
    TableByAge(db.audit, after.audit, OldAudit(Cutoff(policy.validationAuditDays, now)), PastAudit(db, policy, now),
               |PastAudit(db, policy, now)| <= 50_000_000);
    TableByAge(db.chains, after.chains, OldChain(Cutoff(policy.googleChainDays, now)), PastChains(db, policy, now),
               |PastChains(db, policy, now)| <= 50_000_000);
  }

  /** Each table below the cap is filtered, whatever the others hold. */
  ghost predicate SweptWithinCaps(db: Db, after: Db, policy: Policy, now: int) {
    var swept, expired := Swept(db, policy, now), Expired(db, policy, now);
    && (expired.webhookEvents <= BATCH_CAP ==> after.events == swept.events && after.deliveries == swept.deliveries)
    && (expired.validationAudit <= BATCH_CAP ==> after.audit == swept.audit)
    && (expired.googlePurchaseChains <= BATCH_CAP ==> after.chains == swept.chains)
  }

  /** Deliveries left by the cascade once only the events in `kept` remain. */
  function Cascaded(deliveries: map<DeliveryId, DeliveryRow>, kept: map<EventId, EventRow>): map<DeliveryId, DeliveryRow> {
    map d | d in deliveries && deliveries[d].eventId in kept :: deliveries[d]
  }

  lemma CascadeTrims(db: Db, rows: map<DeliveryId, DeliveryRow>, kept: map<EventId, EventRow>, before: Option<int>)
    requires ForeignKeysHold(db)
    requires Trimmed(db.deliveries, rows, OfOldEvent(db.events, before)) && Trimmed(db.events, kept, OldEvent(before))
    ensures Trimmed(db.deliveries, Cascaded(rows, kept), OfOldEvent(db.events, before))
    ensures kept == Rest(db.events, OldEvent(before)) ==> Cascaded(rows, kept) == Rest(db.deliveries, OfOldEvent(db.events, before))
  {
  }

  /** Below the cap for the tables whose rows decide the outcome; excess deliveries go with the cascade. */
  predicate WithinCap(expired: PurgeResult) {
    expired.webhookEvents <= BATCH_CAP && expired.validationAudit <= BATCH_CAP && expired.googlePurchaseChains <= BATCH_CAP
  }

  /** Whatever a sweep deletes, capped or not, was past its cutoff, and what it keeps is unchanged. */
  ghost predicate OnlyExpiredGone(db: Db, after: Db, policy: Policy, now: int) {
    var before := Cutoff(policy.webhookEventDays, now);
    && Trimmed(db.events, after.events, OldEvent(before))
    && Trimmed(db.deliveries, after.deliveries, OfOldEvent(db.events, before))
    && Trimmed(db.audit, after.audit, OldAudit(Cutoff(policy.validationAuditDays, now)))
    && Trimmed(db.chains, after.chains, OldChain(Cutoff(policy.googleChainDays, now)))
  }

  /** A table without a window is its own sweep, with nothing to count. */
  lemma NoWindowNoSweep(db: Db)
    ensures EventsSwept(db.events, db.deliveries, db.events, db.deliveries, None, 0, 0)
  {
    NothingSwept(db.events, OldEvent(None));
    NothingSwept(db.deliveries, OfOldEvent(db.events, None));
  }

  lemma NothingSwept<Id, Row>(table: map<Id, Row>, pred: Row -> bool)
    requires forall row: Row :: !pred(row)
    ensures TableSwept(table, table, pred, 0) && Matching(table, pred) == {} && Rest(table, pred) == table
  {
    assert Matching(table, pred) == {};
  }

  // ---------------------------------------------------------------------------------------------
  // What a sweep below the cap amounts to.
  // ---------------------------------------------------------------------------------------------

  lemma RestCount<Id, Row>(rows: map<Id, Row>, pred: Row -> bool)
    ensures |rows| == |Rest(rows, pred)| + |Matching(rows, pred)|
  {
    var rest := Rest(rows, pred);
    assert rows.Keys == rest.Keys + Matching(rows, pred);
    assert |rows.Keys| == |rest.Keys| + |Matching(rows, pred)|;
  }

  lemma SweepConservesExpired(db: Db, policy: Policy, now: int)
    ensures var s, r := Swept(db, policy, now), Expired(db, policy, now);
            && |db.events| == |s.events| + r.webhookEvents
            && |db.deliveries| == |s.deliveries| + r.webhookDeliveries
            && |db.audit| == |s.audit| + r.validationAudit
            && |db.chains| == |s.chains| + r.googlePurchaseChains
  {
    var before := Cutoff(policy.webhookEventDays, now);
    RestCount(db.events, OldEvent(before));
    RestCount(db.deliveries, OfOldEvent(db.events, before));
    RestCount(db.audit, OldAudit(Cutoff(policy.validationAuditDays, now)));
    RestCount(db.chains, OldChain(Cutoff(policy.googleChainDays, now)));
  }

  /**
    Conservation: within the cap, what is gone from each table is the count that the sweep reports for
    it. Deliveries beyond the cap go with the cascade uncounted: their report is exact iff they fit it.
   */
  lemma SweepConservesRows(db: Db, policy: Policy, now: int)
    requires WithinCap(Expired(db, policy, now))
    ensures var s, expired := Swept(db, policy, now), Expired(db, policy, now);
            var reported := Capped(expired);
            && |db.events| == |s.events| + reported.webhookEvents
            && |db.audit| == |s.audit| + reported.validationAudit
            && |db.chains| == |s.chains| + reported.googlePurchaseChains
            && |db.deliveries| >= |s.deliveries| + reported.webhookDeliveries
            && (|db.deliveries| == |s.deliveries| + reported.webhookDeliveries <==> expired.webhookDeliveries <= BATCH_CAP)
  {
    SweepConservesExpired(db, policy, now);
  }

  lemma RestTwice<Id, Row>(rows: map<Id, Row>, first: Row -> bool, second: Row -> bool)
    requires forall r: Row :: first(r) ==> second(r)
    ensures Rest(Rest(rows, first), second) == Rest(rows, second)
    ensures Matching(Rest(rows, first), first) == {}
  {
  }

  /** A delivery kept by the first sweep is judged by the later one exactly as it would have been before. */
  lemma DeliveriesCompose(db: Db, before: Option<int>, later: Option<int>)
    requires ForeignKeysHold(db)
    requires before.Some? <==> later.Some?
    requires before.Some? ==> before.value <= later.value
    ensures var events := Rest(db.events, OldEvent(before));
            var kept := Rest(db.deliveries, OfOldEvent(db.events, before));
            && (forall d <- kept :: kept[d].eventId in events)
            && Rest(kept, OfOldEvent(events, later)) == Rest(db.deliveries, OfOldEvent(db.events, later))
            && Matching(kept, OfOldEvent(events, before)) == {}
  {
  }

  /**
    A sweep followed by one no earlier is the later sweep; so sweeping again at the same instant
    changes nothing and counts nothing. Foreign keys hold throughout.
   */
  lemma SweepsCompose(db: Db, policy: Policy, now: int, later: int)
    requires ForeignKeysHold(db) && now <= later
    ensures ForeignKeysHold(Swept(db, policy, now))
    ensures Swept(Swept(db, policy, now), policy, later) == Swept(db, policy, later)
    ensures Expired(Swept(db, policy, now), policy, now) == PurgeResult(0, 0, 0, 0)
  {
    var p := policy;
    RestTwice(db.events, OldEvent(Cutoff(p.webhookEventDays, now)), OldEvent(Cutoff(p.webhookEventDays, later)));
    RestTwice(db.audit, OldAudit(Cutoff(p.validationAuditDays, now)), OldAudit(Cutoff(p.validationAuditDays, later)));
    RestTwice(db.chains, OldChain(Cutoff(p.googleChainDays, now)), OldChain(Cutoff(p.googleChainDays, later)));
    DeliveriesCompose(db, Cutoff(p.webhookEventDays, now), Cutoff(p.webhookEventDays, later));
  }
}
