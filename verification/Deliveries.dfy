/**
  Outbound deliveries as rows: the decision of one attempt (app/services/webhooks/delivery.ts), the
  row update that persists it, and the claim of due rows (app/db/queries/webhooks.ts).
 */
module Deliveries {
  import opened Wrappers

  type DeliveryId = string
  type EventId = string
  type TenantId = string

  /** Backoff in seconds, indexed by the attempt count before the failing attempt. */
  const RETRY_SCHEDULE_SECONDS: seq<int> := [30, 120, 600, 3600, 21600]
  const RESPONSE_BODY_MAX_CHARS: nat := 256

  datatype Status = Pending | Delivered | Failed

  datatype Delivery = Delivery(
    eventId: EventId, tenantId: TenantId, callbackUrl: string,
    attemptCount: nat, status: Status,
    lastAttemptAt: Option<int>, nextAttemptAt: int,
    lastResponseCode: Option<int>, lastResponseBody: Option<string>,
    deliveredAt: Option<int>, failedAt: Option<int>)

  /** A new row with the schema's defaults. */
  function NewDelivery(eventId: EventId, tenantId: TenantId, callbackUrl: string, now: int): Delivery {
    Delivery(eventId, tenantId, callbackUrl, 0, Pending, None, now, None, None, None, None)
  }

  datatype Kind = Succeeded | Retry(nextAttemptAt: int) | GaveUp

  datatype Outcome = Outcome(kind: Kind, responseCode: Option<int>, responseBody: Option<string>)

  /** How the POST went: a response (with its body text, empty if unreadable), or a network error or timeout. */
  datatype Reply = Responded(status: int, text: string) | NetworkError(message: string)

  /** What config.ts enforces at boot. */
  predicate ValidMaxRetries(maxRetries: nat) { maxRetries <= |RETRY_SCHEDULE_SECONDS| }

  predicate Accepted(reply: Reply) { reply.Responded? && 200 <= reply.status < 300 }

  function Truncated(text: string): string {
    if |text| > RESPONSE_BODY_MAX_CHARS then text[..RESPONSE_BODY_MAX_CHARS] else text
  }

  /** The outcome of an attempt on a row that had been attempted `attemptCount` times before. */
  function Decide(attemptCount: nat, maxRetries: nat, reply: Reply, now: int): Outcome
    requires ValidMaxRetries(maxRetries)
  {
    var code := if reply.Responded? then Some(reply.status) else None;
    var body := Some(Truncated(if reply.Responded? then reply.text else reply.message));
    if Accepted(reply) then Outcome(Succeeded, code, body)
    else if attemptCount >= maxRetries then Outcome(GaveUp, code, body)
    else Outcome(Retry(now + RETRY_SCHEDULE_SECONDS[attemptCount] * 1000), code, body)
  }

  /** The row after `updateDeliveryAttempt`. */
  function Updated(row: Delivery, o: Outcome, now: int): Delivery {
    var tried := row.(attemptCount := row.attemptCount + 1, lastAttemptAt := Some(now),
                      lastResponseCode := o.responseCode, lastResponseBody := o.responseBody);
    match o.kind
    case Succeeded => tried.(status := Delivered, deliveredAt := Some(now))
    case GaveUp => tried.(status := Failed, failedAt := Some(now))
    case Retry(next) => tried.(nextAttemptAt := next)
  }

  /** What every persisted row satisfies. */
  predicate RowOk(row: Delivery, maxRetries: nat) {
    && row.attemptCount <= maxRetries + 1
    && (row.status == Pending ==> row.attemptCount <= maxRetries)
    && (row.deliveredAt.Some? <==> row.status == Delivered)
    && (row.failedAt.Some? <==> row.status == Failed)
  }

  /**
    What an attempt must answer: delivered exactly on a 2xx status, given up exactly when the retries are
    used up, otherwise a retry after the backoff in milliseconds; with the status, if there was one, and
    the first 256 characters of what came back.
   */
  ghost predicate Answers(attemptCount: nat, maxRetries: nat, reply: Reply, now: int, o: Outcome)
    requires maxRetries <= 5
  {
    var accepted := reply.Responded? && 200 <= reply.status <= 299;
    var said := if reply.Responded? then reply.text else reply.message;
    && (o.kind.Succeeded? <==> accepted)
    && (o.kind.GaveUp? <==> !accepted && attemptCount >= maxRetries)
    && (o.kind.Retry? ==> attemptCount < maxRetries && o.kind.nextAttemptAt == now + [30_000, 120_000, 600_000, 3_600_000, 21_600_000][attemptCount])
    && o.responseCode == (if reply.Responded? then Some(reply.status) else None)
    && o.responseBody.Some? && o.responseBody.value <= said
    && (if |said| <= 256 then o.responseBody.value == said else |o.responseBody.value| == 256)
  }

  lemma DecisionAnswers(attemptCount: nat, maxRetries: nat, reply: Reply, now: int)
    requires ValidMaxRetries(maxRetries)
    ensures maxRetries <= 5 && Answers(attemptCount, maxRetries, reply, now, Decide(attemptCount, maxRetries, reply, now))
  {
  }

  /** What persisting an outcome records; the event, the tenant and the callback URL never change. */
  ghost predicate Records(row: Delivery, o: Outcome, now: int, after: Delivery) {
    && after.eventId == row.eventId && after.tenantId == row.tenantId && after.callbackUrl == row.callbackUrl
    && after.attemptCount == row.attemptCount + 1 && after.lastAttemptAt == Some(now)
    && after.lastResponseCode == o.responseCode && after.lastResponseBody == o.responseBody
    && after.status == (match o.kind case Succeeded => Delivered case GaveUp => Failed case Retry(_) => row.status)
    && after.nextAttemptAt == (if o.kind.Retry? then o.kind.nextAttemptAt else row.nextAttemptAt)
    && after.deliveredAt == (if o.kind.Succeeded? then Some(now) else row.deliveredAt)
    && after.failedAt == (if o.kind.GaveUp? then Some(now) else row.failedAt)
  }

  lemma UpdateRecords(row: Delivery, o: Outcome, now: int)
    ensures Records(row, o, now, Updated(row, o, now))
  {
  }

  /** `attemptDelivery`, with the reply of its POST and the clock reading after it. */
  method AttemptDelivery(delivery: Delivery, maxRetries: nat, reply: Reply, now: int) returns (o: Outcome)
    requires ValidMaxRetries(maxRetries)
    ensures o == Decide(delivery.attemptCount, maxRetries, reply, now)
    ensures Answers(delivery.attemptCount, maxRetries, reply, now, o)
  {
    DecisionAnswers(delivery.attemptCount, maxRetries, reply, now);
    var responseCode: Option<int> := None;
    var responseBody: Option<string> := None;
    match reply {
      case Responded(status, text) =>
        responseCode := Some(status);
        responseBody := Some(Truncated(text));
        if 200 <= status < 300 { return Outcome(Succeeded, responseCode, responseBody); }
      case NetworkError(message) =>
        responseBody := Some(Truncated(message));
    }
    var attemptIndex := delivery.attemptCount;
    if attemptIndex >= maxRetries { return Outcome(GaveUp, responseCode, responseBody); }
    var nextDelaySec := RETRY_SCHEDULE_SECONDS[attemptIndex];
    return Outcome(Retry(now + nextDelaySec * 1000), responseCode, responseBody);
  }

  lemma UpdateKeepsRowOk(row: Delivery, maxRetries: nat, o: Outcome, now: int)
    requires RowOk(row, maxRetries) && row.status == Pending
    requires o.kind.Retry? ==> row.attemptCount < maxRetries
    ensures RowOk(Updated(row, o, now), maxRetries)
  {
  }

  // ---------------------------------------------------------------------------------------------
  // Claiming.
  // ---------------------------------------------------------------------------------------------

  predicate Due(row: Delivery, now: int) { row.status == Pending && row.nextAttemptAt <= now }

  /** `claimed` is an answer to: the due rows, earliest next attempt first, at most `limit` of them. */
  ghost predicate IsClaim(rows: map<DeliveryId, Delivery>, now: int, limit: nat, claimed: seq<DeliveryId>) {
    && |claimed| <= limit
    && (forall i, j | 0 <= i < j < |claimed| :: claimed[i] != claimed[j])
    && (forall id <- claimed :: id in rows && Due(rows[id], now))
    && (forall i, j | 0 <= i < j < |claimed| :: rows[claimed[i]].nextAttemptAt <= rows[claimed[j]].nextAttemptAt)
    && (forall id <- rows | Due(rows[id], now) && id !in claimed ::
          |claimed| == limit && forall c <- claimed :: rows[c].nextAttemptAt <= rows[id].nextAttemptAt)
  }

  // ---------------------------------------------------------------------------------------------
  // One delivery's life when every POST fails.
  // ---------------------------------------------------------------------------------------------

  /** One round: claimed at a tick, decided after the POST, persisted. */
  datatype Attempt = Attempt(claimedAt: int, reply: Reply, decidedAt: int, persistedAt: int)

  /** The row after the first k attempts. */
  ghost function RowAfter(row: Delivery, maxRetries: nat, attempts: seq<Attempt>, k: nat): Delivery
    requires ValidMaxRetries(maxRetries) && k <= |attempts|
  {
    if k == 0 then row else
    var before := RowAfter(row, maxRetries, attempts, k - 1);
    var a := attempts[k - 1];
    Updated(before, Decide(before.attemptCount, maxRetries, a.reply, a.decidedAt), a.persistedAt)
  }

  /** Each attempt was made on a claimable row, in order of time, and failed. */
  ghost predicate AllFail(row: Delivery, maxRetries: nat, attempts: seq<Attempt>)
    requires ValidMaxRetries(maxRetries)
  {
    forall k | 0 <= k < |attempts| ::
      && !Accepted(attempts[k].reply)
      && Due(RowAfter(row, maxRetries, attempts, k), attempts[k].claimedAt)
      && attempts[k].claimedAt <= attempts[k].decidedAt
  }

  /** Milliseconds of backoff before the k-th retry. */
  function BackoffMs(k: nat): int
    requires k <= |RETRY_SCHEDULE_SECONDS|
  {
    if k == 0 then 0 else BackoffMs(k - 1) + RETRY_SCHEDULE_SECONDS[k - 1] * 1000
  }

  /**
    A fresh delivery whose POSTs all fail is pending with attempt count k after k attempts for
    every k up to maxRetries, next due exactly one backoff entry after the k-th decision, so it can never be attempted more than 1 + maxRetries times; after
    exactly that many it is failed. Its k-th retry is claimed no earlier than the first decision
    plus the first k backoff entries.
   */
  lemma {:induction false} FailingDeliveryLife(row: Delivery, maxRetries: nat, attempts: seq<Attempt>, k: nat)
    requires ValidMaxRetries(maxRetries) && k <= |attempts|
    requires row.status == Pending && row.attemptCount == 0 && AllFail(row, maxRetries, attempts)
    ensures k <= maxRetries + 1
    ensures RowAfter(row, maxRetries, attempts, k).attemptCount == k
    ensures RowAfter(row, maxRetries, attempts, k).status == if k <= maxRetries then Pending else Failed
    ensures 0 < k <= maxRetries ==>
              && RowAfter(row, maxRetries, attempts, k).nextAttemptAt
                 == attempts[k - 1].decidedAt + [30_000, 120_000, 600_000, 3_600_000, 21_600_000][k - 1]
              && RowAfter(row, maxRetries, attempts, k).nextAttemptAt >= attempts[0].decidedAt + BackoffMs(k)
    ensures 0 < k < |attempts| ==> attempts[k].claimedAt >= attempts[0].decidedAt + BackoffMs(k)
  {
    if k > 0 {
      FailingDeliveryLife(row, maxRetries, attempts, k - 1);
      assert Due(RowAfter(row, maxRetries, attempts, k - 1), attempts[k - 1].claimedAt);
      if k < |attempts| {
        assert Due(RowAfter(row, maxRetries, attempts, k), attempts[k].claimedAt);
      }
    }
  }
}
