/**
  The webhook tables as one receiver and one tick see them when nothing else runs in between:
  app/db/queries/webhooks.ts, app/services/webhooks/enqueue.ts, and `processOne` and `tick` of
  app/services/webhooks/dispatcher.ts. Interleavings are the subject of Ingestion and DispatcherRuns.
 */
module Dispatcher {
  import opened Wrappers
  import opened Deliveries
  import Ingestion

  type Key = Ingestion.Key
  type WebhookConfig = Ingestion.WebhookConfig

  /** What the world does to one attempt: the reply, the clock after it, the clock at the update. */
  datatype Round = Round(reply: Reply, decidedAt: int, persistedAt: int)

  /** The outcome of processing a claimed row against the current events and configs. */
  function OutcomeFor(events: map<EventId, Key>, configs: map<TenantId, WebhookConfig>,
                      delivery: Delivery, maxRetries: nat, round: Round): Outcome
    requires ValidMaxRetries(maxRetries)
  {
    if delivery.eventId !in events then Outcome(GaveUp, None, Some("event_deleted"))
    else if delivery.tenantId !in configs || !configs[delivery.tenantId].isActive
    then Outcome(GaveUp, None, Some("no_active_webhook_config"))
    else Decide(delivery.attemptCount, maxRetries, round.reply, round.decidedAt)
  }

  /**
    What processing must decide. Without its event, or without an active config of its tenant, a delivery
    fails without a POST, and says why; otherwise the reply to its POST decides.
   */
  ghost predicate Decides(events: map<EventId, Key>, configs: map<TenantId, WebhookConfig>,
                          delivery: Delivery, maxRetries: nat, round: Round, o: Outcome)
    requires maxRetries <= 5
  {
    var active := delivery.tenantId in configs && configs[delivery.tenantId].isActive;
    && (delivery.eventId !in events ==> o == Outcome(GaveUp, None, Some("event_deleted")))
    && (delivery.eventId in events && !active ==> o == Outcome(GaveUp, None, Some("no_active_webhook_config")))
    && (delivery.eventId in events && active ==>
          Answers(delivery.attemptCount, maxRetries, round.reply, round.decidedAt, o))
  }

  lemma OutcomeDecides(events: map<EventId, Key>, configs: map<TenantId, WebhookConfig>,
                       delivery: Delivery, maxRetries: nat, round: Round)
    requires ValidMaxRetries(maxRetries)
    ensures maxRetries <= 5
    ensures Decides(events, configs, delivery, maxRetries, round, OutcomeFor(events, configs, delivery, maxRetries, round))
  {
    DecisionAnswers(delivery.attemptCount, maxRetries, round.reply, round.decidedAt);
  }

  lemma ProcessedDecides(rows: map<DeliveryId, Delivery>, now: map<DeliveryId, Delivery>,
                         events: map<EventId, Key>, configs: map<TenantId, WebhookConfig>,
                         claimed: seq<DeliveryId>, outcomes: seq<Outcome>, maxRetries: nat, world: DeliveryId -> Round)
    requires ValidMaxRetries(maxRetries) && |outcomes| == |claimed|
    requires Processed(rows, now, events, configs, claimed, outcomes, maxRetries, world)
    ensures maxRetries <= 5
    ensures forall j | 0 <= j < |claimed| ::
              && Decides(events, configs, rows[claimed[j]], maxRetries, world(claimed[j]), outcomes[j])
              && Records(rows[claimed[j]], outcomes[j], world(claimed[j]).persistedAt, now[claimed[j]])
  {
    forall j | 0 <= j < |claimed|
      ensures Decides(events, configs, rows[claimed[j]], maxRetries, world(claimed[j]), outcomes[j])
           && Records(rows[claimed[j]], outcomes[j], world(claimed[j]).persistedAt, now[claimed[j]])
    {
      OutcomeDecides(events, configs, rows[claimed[j]], maxRetries, world(claimed[j]));
      UpdateRecords(rows[claimed[j]], outcomes[j], world(claimed[j]).persistedAt);
    }
  }

  ghost predicate AllRowsOk(rows: map<DeliveryId, Delivery>, maxRetries: nat) {
    forall id <- rows :: RowOk(rows[id], maxRetries)
  }

  function Concat(chunks: seq<seq<DeliveryId>>): seq<DeliveryId> {
    if chunks == [] then [] else Concat(chunks[..|chunks| - 1]) + chunks[|chunks| - 1]
  }

  /** All chunks full but possibly the last. */
  ghost predicate Chunked(chunks: seq<seq<DeliveryId>>, size: nat) {
    forall c | 0 <= c < |chunks| :: 0 < |chunks[c]| <= size && (c < |chunks| - 1 ==> |chunks[c]| == size)
  }

  lemma ChunkAdded(claimed: seq<DeliveryId>, chunks: seq<seq<DeliveryId>>, i: nat, end: nat, size: nat)
    requires i < end <= |claimed| && end - i <= size
    requires Concat(chunks) == claimed[..i] && forall c | 0 <= c < |chunks| :: |chunks[c]| == size > 0
    ensures Concat(chunks + [claimed[i..end]]) == claimed[..end] && Chunked(chunks + [claimed[i..end]], size)
  {
    var longer := chunks + [claimed[i..end]];
    assert longer[..|longer| - 1] == chunks;
    assert claimed[..i] + claimed[i..end] == claimed[..end];
  }

  class Tables {
    var events: map<EventId, Key>
    var configs: map<TenantId, WebhookConfig>
    var deliveries: map<DeliveryId, Delivery>

    method InsertWebhookEventIdempotent(id: EventId, key: Key) returns (event: EventId, isNew: bool)
      requires Ingestion.UniqueKeys(events) && id !in events
      modifies this`events
      ensures Ingestion.UniqueKeys(events) && event in events && events[event] == key
      ensures isNew <==> forall e <- old(events) :: old(events)[e] != key
      ensures events == if isNew then old(events)[id := key] else old(events)
      ensures isNew ==> event == id
    {
      if e :| e in events && events[e] == key {
        return e, false;
      }
      events := events[id := key];
      return id, true;
    }

    method MaybeEnqueueDeliveryForEvent(event: EventId, tenantId: TenantId, id: DeliveryId, now: int) returns (enqueued: bool)
      requires id !in deliveries
      modifies this`deliveries
      ensures enqueued <==> tenantId in configs && configs[tenantId].isActive
      ensures deliveries == if enqueued
                            then old(deliveries)[id := NewDelivery(event, tenantId, configs[tenantId].callbackUrl, now)]
                            else old(deliveries)
      ensures enqueued ==>
                id in deliveries && var row := deliveries[id];
                && row.eventId == event && row.tenantId == tenantId && row.callbackUrl == configs[tenantId].callbackUrl
                && row.status == Pending && row.attemptCount == 0 && row.nextAttemptAt == now
                && row.lastAttemptAt.None? && row.lastResponseCode.None? && row.lastResponseBody.None?
                && row.deliveredAt.None? && row.failedAt.None?
    {
      if tenantId !in configs || !configs[tenantId].isActive { return false; }
      deliveries := deliveries[id := NewDelivery(event, tenantId, configs[tenantId].callbackUrl, now)];
      return true;
    }

    /** The ordered, limited select of due rows. */
    method ClaimPendingDeliveries(now: int, limit: nat) returns (claimed: seq<DeliveryId>)
      ensures IsClaim(deliveries, now, limit, claimed)
      ensures |claimed| <= limit && forall i, j | 0 <= i < j < |claimed| :: claimed[i] != claimed[j]
      ensures forall id <- claimed :: id in deliveries && deliveries[id].status == Pending && deliveries[id].nextAttemptAt <= now
      ensures forall id <- deliveries | deliveries[id].status == Pending && deliveries[id].nextAttemptAt <= now ::
                id in claimed || (|claimed| == limit && forall c <- claimed :: deliveries[c].nextAttemptAt <= deliveries[id].nextAttemptAt)
      ensures forall i, j | 0 <= i < j < |claimed| :: deliveries[claimed[i]].nextAttemptAt <= deliveries[claimed[j]].nextAttemptAt
    {
      claimed := [];
      var rest := set id | id in deliveries && Due(deliveries[id], now);
      while |claimed| < limit && rest != {}
        invariant |claimed| <= limit
        invariant forall id <- deliveries :: Due(deliveries[id], now) <==> id in rest || id in claimed
        invariant forall id <- claimed :: id in deliveries && id !in rest
        invariant forall id <- rest :: id in deliveries
        invariant forall i, j | 0 <= i < j < |claimed| ::
                    claimed[i] != claimed[j] && deliveries[claimed[i]].nextAttemptAt <= deliveries[claimed[j]].nextAttemptAt
        invariant forall c <- claimed, id <- rest :: deliveries[c].nextAttemptAt <= deliveries[id].nextAttemptAt
        decreases rest
      {
        EarliestExists(deliveries, rest);
        var first :| first in rest && forall id <- rest :: deliveries[first].nextAttemptAt <= deliveries[id].nextAttemptAt;
        claimed := claimed + [first];
        rest := rest - {first};
      }
    }

    method UpdateDeliveryAttempt(id: DeliveryId, o: Outcome, now: int)
      modifies this`deliveries
      ensures id in old(deliveries) ==> id in deliveries && Records(old(deliveries)[id], o, now, deliveries[id])
      ensures deliveries == if id in old(deliveries)
                            then old(deliveries)[id := Updated(old(deliveries)[id], o, now)] else old(deliveries)
    {
      if id in deliveries {
        var row := deliveries[id];
        row := row.(attemptCount := row.attemptCount + 1, lastAttemptAt := Some(now),
                    lastResponseCode := o.responseCode, lastResponseBody := o.responseBody);
        match o.kind {
          case Succeeded => row := row.(status := Delivered, deliveredAt := Some(now));
          case GaveUp => row := row.(status := Failed, failedAt := Some(now));
          case Retry(next) => row := row.(nextAttemptAt := next);
        }
        deliveries := deliveries[id := row];
      }
    }

    method ProcessOne(id: DeliveryId, delivery: Delivery, maxRetries: nat, round: Round) returns (o: Outcome)
      requires ValidMaxRetries(maxRetries)
      modifies this`deliveries
      ensures o == OutcomeFor(events, configs, delivery, maxRetries, round)
      ensures Decides(events, configs, delivery, maxRetries, round, o)
      ensures id in old(deliveries) ==> id in deliveries && Records(old(deliveries)[id], o, round.persistedAt, deliveries[id])
      ensures deliveries == if id in old(deliveries)
                            then old(deliveries)[id := Updated(old(deliveries)[id], o, round.persistedAt)]
                            else old(deliveries)
    {
      OutcomeDecides(events, configs, delivery, maxRetries, round);
      if delivery.eventId !in events {
        o := Outcome(GaveUp, None, Some("event_deleted"));
      } else if delivery.tenantId !in configs || !configs[delivery.tenantId].isActive {
        o := Outcome(GaveUp, None, Some("no_active_webhook_config"));
      } else {
        o := AttemptDelivery(delivery, maxRetries, round.reply, round.decidedAt);
      }
      UpdateDeliveryAttempt(id, o, round.persistedAt);
    }

    /**
      One tick: the claim, then chunk after chunk. Every claimed row is processed exactly once,
      outcomes come in claim order, and no other row is touched.
     */
    method Tick(limit: nat, concurrency: nat, maxRetries: nat, now: int, world: DeliveryId -> Round)
      returns (claimed: seq<DeliveryId>, outcomes: seq<Outcome>, ghost chunks: seq<seq<DeliveryId>>)
      requires ValidMaxRetries(maxRetries) && concurrency > 0
      modifies this`deliveries
      ensures IsClaim(old(deliveries), now, limit, claimed)
      ensures Concat(chunks) == claimed && Chunked(chunks, concurrency)
      ensures |outcomes| == |claimed|
      ensures forall j | 0 <= j < |claimed| ::
                outcomes[j] == OutcomeFor(events, configs, old(deliveries)[claimed[j]], maxRetries, world(claimed[j]))
      ensures deliveries.Keys == old(deliveries).Keys
      ensures forall j | 0 <= j < |claimed| ::
                && Decides(events, configs, old(deliveries)[claimed[j]], maxRetries, world(claimed[j]), outcomes[j])
                && Records(old(deliveries)[claimed[j]], outcomes[j], world(claimed[j]).persistedAt, deliveries[claimed[j]])
      ensures forall j | 0 <= j < |claimed| ::
                deliveries[claimed[j]] == Updated(old(deliveries)[claimed[j]], outcomes[j], world(claimed[j]).persistedAt)
      ensures forall id <- deliveries :: id !in claimed ==> deliveries[id] == old(deliveries)[id]
      ensures AllRowsOk(old(deliveries), maxRetries) ==> AllRowsOk(deliveries, maxRetries)
    {
      claimed := ClaimPendingDeliveries(now, limit);
      ghost var rows := deliveries;
      outcomes, chunks := [], [];
      var i := 0;
      while i < |claimed|
        invariant 0 <= i && |outcomes| == (if i <= |claimed| then i else |claimed|)
        invariant Concat(chunks) == claimed[..|outcomes|]
        invariant Chunked(chunks, concurrency)
        invariant i <= |claimed| ==> forall c | 0 <= c < |chunks| :: |chunks[c]| == concurrency
        invariant Processed(rows, deliveries, events, configs, claimed, outcomes, maxRetries, world)
      {
        var end := if i + concurrency <= |claimed| then i + concurrency else |claimed|;
        outcomes := ProcessChunk(rows, claimed, outcomes, end, maxRetries, world);
        ChunkAdded(claimed, chunks, i, end, concurrency);
        chunks := chunks + [claimed[i..end]];
        i := i + concurrency;
      }
      assert claimed[..|claimed|] == claimed;
      ProcessedDecides(rows, deliveries, events, configs, claimed, outcomes, maxRetries, world);
      ProcessedKeepsRowsOk(rows, deliveries, events, configs, claimed, outcomes, maxRetries, world);
    }

    /** The attempts of one chunk, in any order that respects each row: they touch different rows. */
    method ProcessChunk(ghost rows: map<DeliveryId, Delivery>, claimed: seq<DeliveryId>, done: seq<Outcome>, end: nat,
                        maxRetries: nat, world: DeliveryId -> Round)
      returns (outcomes: seq<Outcome>)
      requires ValidMaxRetries(maxRetries) && |done| <= end <= |claimed|
      requires forall i, j | 0 <= i < j < |claimed| :: claimed[i] != claimed[j]
      requires Processed(rows, deliveries, events, configs, claimed, done, maxRetries, world)
      modifies this`deliveries
      ensures |outcomes| == end && done <= outcomes
      ensures Processed(rows, deliveries, events, configs, claimed, outcomes, maxRetries, world)
    {
      outcomes := done;
      for k := |done| to end
        invariant |outcomes| == k && done <= outcomes
        invariant Processed(rows, deliveries, events, configs, claimed, outcomes, maxRetries, world)
      {
        ghost var before := deliveries;
        assert claimed[k] in before && claimed[k] !in claimed[..k];
        var o := ProcessOne(claimed[k], deliveries[claimed[k]], maxRetries, world(claimed[k]));
        ProcessedExtends(rows, before, deliveries, events, configs, claimed, outcomes, o, maxRetries, world);
        outcomes := outcomes + [o];
      }
    }
  }

  /** The first |outcomes| claimed rows are updated from `rows`, everything else is as in `rows`. */
  ghost predicate Processed(rows: map<DeliveryId, Delivery>, now: map<DeliveryId, Delivery>,
                            events: map<EventId, Key>, configs: map<TenantId, WebhookConfig>,
                            claimed: seq<DeliveryId>, outcomes: seq<Outcome>, maxRetries: nat, world: DeliveryId -> Round)
    requires ValidMaxRetries(maxRetries)
  {
    && |outcomes| <= |claimed|
    && (forall id <- claimed :: id in rows)
    && now.Keys == rows.Keys
    && (forall j | 0 <= j < |outcomes| ::
          && outcomes[j] == OutcomeFor(events, configs, rows[claimed[j]], maxRetries, world(claimed[j]))
          && now[claimed[j]] == Updated(rows[claimed[j]], outcomes[j], world(claimed[j]).persistedAt))
    && (forall id <- rows :: id !in claimed[..|outcomes|] ==> now[id] == rows[id])
  }

  lemma ProcessedExtends(rows: map<DeliveryId, Delivery>, before: map<DeliveryId, Delivery>, after: map<DeliveryId, Delivery>,
                         events: map<EventId, Key>, configs: map<TenantId, WebhookConfig>,
                         claimed: seq<DeliveryId>, outcomes: seq<Outcome>, o: Outcome, maxRetries: nat, world: DeliveryId -> Round)
    requires ValidMaxRetries(maxRetries) && |outcomes| < |claimed|
    requires forall i, j | 0 <= i < j < |claimed| :: claimed[i] != claimed[j]
    requires Processed(rows, before, events, configs, claimed, outcomes, maxRetries, world)
    requires o == OutcomeFor(events, configs, rows[claimed[|outcomes|]], maxRetries, world(claimed[|outcomes|]))
    requires var id := claimed[|outcomes|]; after == before[id := Updated(rows[id], o, world(id).persistedAt)]
    ensures Processed(rows, after, events, configs, claimed, outcomes + [o], maxRetries, world)
  {
    var k := |outcomes|;
    OneMoreRow(rows, before, after, claimed, k);
    var longer := outcomes + [o];
    forall j | 0 <= j < |longer|
      ensures longer[j] == OutcomeFor(events, configs, rows[claimed[j]], maxRetries, world(claimed[j]))
           && after[claimed[j]] == Updated(rows[claimed[j]], longer[j], world(claimed[j]).persistedAt)
    {
      if j < k { assert longer[j] == outcomes[j] && after[claimed[j]] == before[claimed[j]]; }
    }
  }

  lemma OneMoreRow(rows: map<DeliveryId, Delivery>, before: map<DeliveryId, Delivery>, after: map<DeliveryId, Delivery>,
                   claimed: seq<DeliveryId>, k: nat)
    requires k < |claimed| && forall i, j | 0 <= i < j < |claimed| :: claimed[i] != claimed[j]
    requires before.Keys == rows.Keys && (forall id <- claimed :: id in rows)
    requires claimed[k] in after && after == before[claimed[k] := after[claimed[k]]]
    requires forall id <- rows :: id !in claimed[..k] ==> before[id] == rows[id]
    ensures after.Keys == rows.Keys && forall j | 0 <= j < k :: after[claimed[j]] == before[claimed[j]]
    ensures forall id <- rows :: id !in claimed[..k + 1] ==> after[id] == rows[id]
  {
  }

  /** Processing due rows keeps every row consistent. */
  lemma ProcessedKeepsRowsOk(rows: map<DeliveryId, Delivery>, now: map<DeliveryId, Delivery>,
                             events: map<EventId, Key>, configs: map<TenantId, WebhookConfig>,
                             claimed: seq<DeliveryId>, outcomes: seq<Outcome>, maxRetries: nat, world: DeliveryId -> Round)
    requires ValidMaxRetries(maxRetries) && |outcomes| == |claimed|
    requires Processed(rows, now, events, configs, claimed, outcomes, maxRetries, world)
    requires forall id <- claimed :: rows[id].status == Pending
    ensures AllRowsOk(rows, maxRetries) ==> AllRowsOk(now, maxRetries)
  {
    if AllRowsOk(rows, maxRetries) {
      forall id <- now ensures RowOk(now[id], maxRetries) {
        if id in claimed {
          var j :| 0 <= j < |claimed| && claimed[j] == id;
          UpdateKeepsRowOk(rows[id], maxRetries, outcomes[j], world(id).persistedAt);
        } else {
          assert id !in claimed[..|outcomes|];
        }
      }
    }
  }

  lemma {:induction false} EarliestExists(rows: map<DeliveryId, Delivery>, ids: set<DeliveryId>)
    requires ids != {} && forall id <- ids :: id in rows
    ensures exists first :: first in ids && forall id <- ids :: rows[first].nextAttemptAt <= rows[id].nextAttemptAt
    decreases ids
  {
    var any :| any in ids;
    if ids != {any} {
      var others := ids - {any};
      EarliestExists(rows, others);
      var first :| first in others && forall id <- others :: rows[first].nextAttemptAt <= rows[id].nextAttemptAt;
      var best := if rows[any].nextAttemptAt < rows[first].nextAttemptAt then any else first;
      assert best in ids && forall id <- ids :: rows[best].nextAttemptAt <= rows[id].nextAttemptAt;
    }
  }
}
