/**
  Idempotent ingestion under concurrency: any number of receivers, on any keys, interleaved at every
  database statement of `insertWebhookEventIdempotent` (app/db/queries/webhooks.ts) and
  `maybeEnqueueDeliveryForEvent` (app/services/webhooks/enqueue.ts), any of which may crash between
  two statements.

  Each statement is atomic: the unique index on (tenant, source, externalId) serializes inserts.
 */
module Ingestion {
  import opened Wrappers

  type EventId = string
  type DeliveryId = string
  type HandlerId = nat

  datatype Key = Key(tenantId: string, source: string, externalId: string)

  datatype WebhookConfig = WebhookConfig(callbackUrl: string, isActive: bool)

  /** Where a receiver stands. `Got` is the return of the idempotent insert. */
  datatype Progress =
    | Inserting
    | Looking(retried: bool)
    | Got(event: EventId, isNew: bool, degraded: bool)
    | Enqueueing(event: EventId, callbackUrl: string)
    | Finished(event: EventId, isNew: bool, enqueued: bool)
    | Crashed(won: bool, enqueued: bool)

  /** `id` is the event id the receiver made for itself. */
  datatype Handler = Handler(key: Key, id: EventId, progress: Progress)

  datatype State = State(
    events: map<EventId, Key>,
    deliveries: map<DeliveryId, EventId>,
    configs: map<string, WebhookConfig>,
    handlers: map<HandlerId, Handler>)

  datatype Step =
    | Arrive(h: HandlerId, key: Key, id: EventId)
    | Insert(h: HandlerId)
    | Look(h: HandlerId, found: Option<EventId>)
    | ReadConfig(h: HandlerId)
    | EnqueueDelivery(h: HandlerId, delivery: DeliveryId)
    | Crash(h: HandlerId)
    | Configure(tenantId: string, config: Option<WebhookConfig>)
    | RemoveEvents(ids: set<EventId>)

  const INIT: State := State(map[], map[], map[], map[])

  predicate At(s: State, h: HandlerId, p: Progress) { h in s.handlers && s.handlers[h].progress == p }

  ghost predicate HasEvent(s: State, key: Key) { exists e <- s.events :: s.events[e] == key }

  /** The receiver inserted the event row: the RETURNING clause gave it back. */
  predicate Won(h: Handler) {
    match h.progress
    case Got(_, isNew, _) => isNew
    case Enqueueing(_, _) => true
    case Finished(_, isNew, _) => isNew
    case Crashed(won, _) => won
    case _ => false
  }

  predicate Enqueued(h: Handler) {
    match h.progress
    case Finished(_, _, enqueued) => enqueued
    case Crashed(_, enqueued) => enqueued
    case _ => false
  }

  ghost predicate Enabled(s: State, step: Step) {
    match step
    case Arrive(h, _, id) => h !in s.handlers && id !in s.events && forall g <- s.handlers :: s.handlers[g].id != id
    case Insert(h) => At(s, h, Inserting)
    case Look(h, found) =>
      && h in s.handlers && s.handlers[h].progress.Looking?
      && (match found
          case Some(e) => e in s.events && s.events[e] == s.handlers[h].key
          case None => !HasEvent(s, s.handlers[h].key))
    case ReadConfig(h) => h in s.handlers && s.handlers[h].progress.Got?
    case EnqueueDelivery(h, d) => h in s.handlers && s.handlers[h].progress.Enqueueing? && d !in s.deliveries
    case Crash(h) => h in s.handlers && !s.handlers[h].progress.Finished? && !s.handlers[h].progress.Crashed?
    case _ => true
  }

  function Advance(s: State, h: HandlerId, p: Progress): State
    requires h in s.handlers
  {
    s.(handlers := s.handlers[h := s.handlers[h].(progress := p)])
  }

  ghost function Apply(s: State, step: Step): State
    requires Enabled(s, step)
  {
    match step
    case Arrive(h, key, id) => s.(handlers := s.handlers[h := Handler(key, id, Inserting)])
    case Insert(h) =>
      var me := s.handlers[h];
      if HasEvent(s, me.key) then Advance(s, h, Looking(false))
      else Advance(s, h, Got(me.id, true, false)).(events := s.events[me.id := me.key])
    case Look(h, found) =>
      match found {
        case Some(e) => Advance(s, h, Got(e, false, false))
        case None =>
          if s.handlers[h].progress.retried then Advance(s, h, Got(s.handlers[h].id, false, true))
          else Advance(s, h, Looking(true))
      }
    case ReadConfig(h) =>
      var got, tenant := s.handlers[h].progress, s.handlers[h].key.tenantId;
      if !got.isNew then Advance(s, h, Finished(got.event, false, false))
      else if tenant in s.configs && s.configs[tenant].isActive
      then Advance(s, h, Enqueueing(got.event, s.configs[tenant].callbackUrl))
      else Advance(s, h, Finished(got.event, true, false))
    case EnqueueDelivery(h, d) =>
      var e := s.handlers[h].progress.event;
      Advance(s, h, Finished(e, true, true)).(deliveries := s.deliveries[d := e])
    case Crash(h) => Advance(s, h, Crashed(Won(s.handlers[h]), Enqueued(s.handlers[h])))
    case Configure(t, config) =>
      s.(configs := match config case Some(c) => s.configs[t := c] case None => s.configs - {t})
    case RemoveEvents(ids) =>
      s.(events := s.events - ids,
         deliveries := map d | d in s.deliveries && s.deliveries[d] !in ids :: s.deliveries[d])
  }

  ghost predicate IsRun(steps: seq<Step>)
    decreases |steps|, 0
  {
    steps == [] || (IsRun(steps[..|steps| - 1]) && Enabled(After(steps[..|steps| - 1]), steps[|steps| - 1]))
  }

  ghost function After(steps: seq<Step>): State
    requires IsRun(steps)
    decreases |steps|, 1
  {
    if steps == [] then INIT else Apply(After(steps[..|steps| - 1]), steps[|steps| - 1])
  }

  // ---------------------------------------------------------------------------------------------
  // The invariant, while no event row is deleted.
  // ---------------------------------------------------------------------------------------------

  /** What each receiver's progress says about the tables. */
  ghost predicate HandlerOk(s: State, h: HandlerId)
    requires h in s.handlers
  {
    var me := s.handlers[h];
    && (Won(me) ==> me.id in s.events && s.events[me.id] == me.key)
    && (match me.progress
        case Inserting => me.id !in s.events
        case Looking(_) => HasEvent(s, me.key)
        case Got(e, isNew, degraded) => !degraded && e in s.events && s.events[e] == me.key && (isNew ==> e == me.id)
        case Enqueueing(e, _) => e == me.id
        case Finished(e, isNew, enqueued) =>
          e in s.events && s.events[e] == me.key && (isNew ==> e == me.id) && (enqueued ==> isNew)
        case Crashed(won, enqueued) => enqueued ==> won)
  }

  /** A delivery row was enqueued by the receiver whose event it is. */
  ghost predicate DeliveryOk(s: State, d: DeliveryId)
    requires d in s.deliveries
  {
    exists h <- s.handlers :: s.handlers[h].id == s.deliveries[d] && Won(s.handlers[h]) && Enqueued(s.handlers[h])
  }

  ghost predicate EventOk(s: State, e: EventId)
    requires e in s.events
  {
    exists h <- s.handlers :: s.handlers[h].id == e && s.handlers[h].key == s.events[e] && Won(s.handlers[h])
  }

  ghost predicate UniqueKeys(events: map<EventId, Key>) {
    forall a <- events, b <- events :: events[a] == events[b] ==> a == b
  }

  ghost predicate UniqueIds(s: State) {
    forall g <- s.handlers, h <- s.handlers :: s.handlers[g].id == s.handlers[h].id ==> g == h
  }

  ghost predicate OneDeliveryPerEvent(s: State) {
    forall c <- s.deliveries, d <- s.deliveries :: s.deliveries[c] == s.deliveries[d] ==> c == d
  }

  ghost predicate HasDelivery(s: State, e: EventId) { exists d <- s.deliveries :: s.deliveries[d] == e }

  ghost predicate Inv(s: State) {
    && UniqueKeys(s.events) && UniqueIds(s) && OneDeliveryPerEvent(s)
    && (forall h <- s.handlers :: HandlerOk(s, h))
    && (forall e <- s.events :: EventOk(s, e))
    && (forall d <- s.deliveries :: DeliveryOk(s, d))
    && (forall h <- s.handlers :: Enqueued(s.handlers[h]) ==> HasDelivery(s, s.handlers[h].id))
  }

  /** Winning and having enqueued are forever. */
  lemma HandlerPersists(s: State, step: Step, h: HandlerId)
    requires Enabled(s, step) && h in s.handlers
    ensures var s' := Apply(s, step);
            && h in s'.handlers
            && s'.handlers[h].id == s.handlers[h].id && s'.handlers[h].key == s.handlers[h].key
            && (Won(s.handlers[h]) ==> Won(s'.handlers[h]))
            && (Enqueued(s.handlers[h]) ==> Enqueued(s'.handlers[h]))
  {
  }

  /** So are event and delivery rows, until they are deleted. */
  lemma RowsPersist(s: State, step: Step)
    requires Enabled(s, step) && !step.RemoveEvents?
    requires step.Insert? ==> HandlerOk(s, step.h)
    ensures forall e <- s.events :: e in Apply(s, step).events && Apply(s, step).events[e] == s.events[e]
    ensures forall d <- s.deliveries :: d in Apply(s, step).deliveries && Apply(s, step).deliveries[d] == s.deliveries[d]
  {
  }

  lemma OtherHandlerFrame(s: State, s': State, h: HandlerId)
    requires h in s.handlers && HandlerOk(s, h) && h in s'.handlers && s'.handlers[h] == s.handlers[h]
    requires forall e <- s.events :: e in s'.events && s'.events[e] == s.events[e]
    requires s.handlers[h].id in s'.events ==> s.handlers[h].id in s.events
    ensures HandlerOk(s', h)
  {
  }

  lemma OwnStepKeepsHandler(s: State, step: Step)
    requires Enabled(s, step) && !step.RemoveEvents? && !step.Configure? && !step.Arrive?
    requires HandlerOk(s, step.h)
    ensures HandlerOk(Apply(s, step), step.h)
  {
  }

  lemma StepKeepsHandler(s: State, step: Step, h: HandlerId)
    requires Enabled(s, step) && !step.RemoveEvents? && UniqueIds(s)
    requires h in s.handlers ==> HandlerOk(s, h)
    requires step.Insert? ==> HandlerOk(s, step.h)
    requires h in Apply(s, step).handlers
    ensures HandlerOk(Apply(s, step), h)
  {
    if step.Configure? || (!step.Arrive? && step.h != h) || (step.Arrive? && step.h != h) {
      RowsPersist(s, step);
      OtherHandlerFrame(s, Apply(s, step), h);
    } else if !step.Arrive? {
      OwnStepKeepsHandler(s, step);
    }
  }

  lemma StepKeepsUniqueKeys(s: State, step: Step)
    requires Enabled(s, step) && UniqueKeys(s.events)
    ensures UniqueKeys(Apply(s, step).events)
  {
  }

  lemma StepKeepsUniqueIds(s: State, step: Step)
    requires Enabled(s, step) && UniqueIds(s)
    ensures UniqueIds(Apply(s, step))
  {
  }

  lemma StepKeepsEvent(s: State, step: Step, e: EventId)
    requires Enabled(s, step) && !step.RemoveEvents?
    requires e in s.events ==> EventOk(s, e)
    requires step.Insert? ==> HandlerOk(s, step.h)
    requires e in Apply(s, step).events
    ensures EventOk(Apply(s, step), e)
  {
    RowsPersist(s, step);
    var s' := Apply(s, step);
    if e in s.events {
      var h :| h in s.handlers && s.handlers[h].id == e && s.handlers[h].key == s.events[e] && Won(s.handlers[h]);
      HandlerPersists(s, step, h);
      assert s'.handlers[h].id == e;
    } else {
      assert s'.handlers[step.h].id == e;
    }
  }

  lemma StepKeepsDelivery(s: State, step: Step, d: DeliveryId)
    requires Enabled(s, step) && !step.RemoveEvents?
    requires d in s.deliveries ==> DeliveryOk(s, d)
    requires step.EnqueueDelivery? ==> HandlerOk(s, step.h)
    requires d in Apply(s, step).deliveries
    ensures DeliveryOk(Apply(s, step), d)
  {
    var s' := Apply(s, step);
    if d in s.deliveries {
      var h :| h in s.handlers && s.handlers[h].id == s.deliveries[d] && Won(s.handlers[h]) && Enqueued(s.handlers[h]);
      HandlerPersists(s, step, h);
      assert s'.handlers[h].id == s'.deliveries[d];
    } else {
      assert s'.handlers[step.h].id == s'.deliveries[d];
    }
  }

  /** The winner enqueues once: before its enqueueing step its event has no delivery. */
  lemma StepKeepsOneDelivery(s: State, step: Step)
    requires Enabled(s, step) && !step.RemoveEvents?
    requires OneDeliveryPerEvent(s) && UniqueIds(s) && forall d <- s.deliveries :: DeliveryOk(s, d)
    requires step.EnqueueDelivery? ==> HandlerOk(s, step.h)
    ensures OneDeliveryPerEvent(Apply(s, step))
  {
  }

  lemma StepKeepsEnqueued(s: State, step: Step, h: HandlerId)
    requires Enabled(s, step) && !step.RemoveEvents? && h in Apply(s, step).handlers
    requires step.EnqueueDelivery? || step.Insert? ==> HandlerOk(s, step.h)
    requires h in s.handlers && Enqueued(s.handlers[h]) ==> HasDelivery(s, s.handlers[h].id)
    requires Enqueued(Apply(s, step).handlers[h])
    ensures HasDelivery(Apply(s, step), Apply(s, step).handlers[h].id)
  {
    var s' := Apply(s, step);
    assert h in s.handlers;
    if Enqueued(s.handlers[h]) {
      RowsPersist(s, step);
      var d :| d in s.deliveries && s.deliveries[d] == s.handlers[h].id;
      assert s'.deliveries[d] == s'.handlers[h].id;
    } else {
      assert s'.deliveries[step.delivery] == s'.handlers[h].id;
    }
  }

  lemma StepKeepsInv(s: State, step: Step)
    requires Inv(s) && Enabled(s, step) && !step.RemoveEvents?
    ensures Inv(Apply(s, step))
  {
    var s' := Apply(s, step);
    StepKeepsUniqueKeys(s, step);
    StepKeepsUniqueIds(s, step);
    StepKeepsOneDelivery(s, step);
    forall h <- s'.handlers ensures HandlerOk(s', h) { StepKeepsHandler(s, step, h); }
    forall e <- s'.events ensures EventOk(s', e) { StepKeepsEvent(s, step, e); }
    forall d <- s'.deliveries ensures DeliveryOk(s', d) { StepKeepsDelivery(s, step, d); }
    forall h <- s'.handlers | Enqueued(s'.handlers[h]) ensures HasDelivery(s', s'.handlers[h].id) {
      StepKeepsEnqueued(s, step, h);
    }
  }

  lemma {:induction false} RunKeepsInv(steps: seq<Step>)
    requires IsRun(steps) && forall step <- steps :: !step.RemoveEvents?
    ensures Inv(After(steps))
  {
    if steps != [] {
      RunKeepsInv(steps[..|steps| - 1]);
      StepKeepsInv(After(steps[..|steps| - 1]), steps[|steps| - 1]);
    }
  }

  // ---------------------------------------------------------------------------------------------
  // The claims.
  // ---------------------------------------------------------------------------------------------

  /** What the idempotent insert returned to a receiver, once it has returned and not crashed. */
  function Returned(h: Handler): Option<(EventId, bool)> {
    match h.progress
    case Got(e, isNew, _) => Some((e, isNew))
    case Enqueueing(e, _) => Some((e, true))
    case Finished(e, isNew, _) => Some((e, isNew))
    case _ => None
  }

  /**
    Idempotent ingestion, in every run that deletes no event row: a key has at most one event row;
    all receivers that return for it return that row's id; the one that is told `isNew` is the one
    that inserted it, and no other is; and the degraded answer is never given.
   */
  lemma IngestionIsIdempotent(steps: seq<Step>, g: HandlerId, h: HandlerId)
    requires IsRun(steps) && forall step <- steps :: !step.RemoveEvents?
    requires g in After(steps).handlers && h in After(steps).handlers
    requires After(steps).handlers[g].key == After(steps).handlers[h].key
    ensures var s := After(steps);
            var first, second := s.handlers[g], s.handlers[h];
            && UniqueKeys(s.events)
            && (Won(first) && Won(second) ==> g == h)
            && (Returned(first).Some? && Returned(second).Some? ==> Returned(first).value.0 == Returned(second).value.0)
            && (first.progress.Got? ==> !first.progress.degraded)
            && (Returned(first).Some? ==>
                  && Returned(first).value.0 in s.events
                  && s.events[Returned(first).value.0] == first.key
                  && (Returned(first).value.1 <==> Won(first)))
  {
    RunKeepsInv(steps);
    assert HandlerOk(After(steps), g) && HandlerOk(After(steps), h);
  }

  /** As soon as one receiver has returned, there is exactly one winner, whose id everyone returns. */
  lemma SomeoneWon(steps: seq<Step>, g: HandlerId)
    requires IsRun(steps) && forall step <- steps :: !step.RemoveEvents?
    requires g in After(steps).handlers && Returned(After(steps).handlers[g]).Some?
    ensures var s := After(steps);
            exists w :: w in s.handlers && Won(s.handlers[w]) && s.handlers[w].key == s.handlers[g].key
                        && s.handlers[w].id == Returned(s.handlers[g]).value.0
  {
    RunKeepsInv(steps);
    assert HandlerOk(After(steps), g);
    assert EventOk(After(steps), Returned(After(steps).handlers[g]).value.0);
  }

  predicate ActiveConfig(s: State, tenantId: string) { tenantId in s.configs && s.configs[tenantId].isActive }

  /** At step i the winner read the config of its tenant, and there was none or it was inactive. */
  ghost predicate ReadNoActiveConfig(steps: seq<Step>, w: HandlerId, key: Key, i: nat) {
    i < |steps| && steps[i] == ReadConfig(w) && IsRun(steps[..i]) && !ActiveConfig(After(steps[..i]), key.tenantId)
  }

  lemma FinishingReadsConfig(s: State, step: Step, w: HandlerId)
    requires Enabled(s, step) && w in Apply(s, step).handlers
    requires var p := Apply(s, step).handlers[w].progress; p.Finished? && p.isNew && !p.enqueued
    requires w !in s.handlers || s.handlers[w].progress != Apply(s, step).handlers[w].progress
    ensures step == ReadConfig(w) && !ActiveConfig(s, Apply(s, step).handlers[w].key.tenantId)
  {
  }

  /** A winner that finishes without enqueueing had read no active config. */
  lemma {:induction false} UnenqueuedReadNoConfig(steps: seq<Step>, w: HandlerId)
    requires IsRun(steps) && w in After(steps).handlers
    requires After(steps).handlers[w].progress.Finished?
    requires After(steps).handlers[w].progress.isNew && !After(steps).handlers[w].progress.enqueued
    ensures exists i: nat :: ReadNoActiveConfig(steps, w, After(steps).handlers[w].key, i)
  {
    var n := |steps| - 1;
    var earlier, step := steps[..n], steps[n];
    if w in After(earlier).handlers && After(earlier).handlers[w].progress == After(steps).handlers[w].progress {
      HandlerPersists(After(earlier), step, w);
      UnenqueuedReadNoConfig(earlier, w);
      var i: nat :| ReadNoActiveConfig(earlier, w, After(earlier).handlers[w].key, i);
      assert earlier[..i] == steps[..i];
      assert ReadNoActiveConfig(steps, w, After(steps).handlers[w].key, i);
    } else {
      FinishingReadsConfig(After(earlier), step, w);
      assert ReadNoActiveConfig(steps, w, After(steps).handlers[w].key, n);
    }
  }

  /** At step i the winner read an active config of its tenant, with this callback URL. */
  ghost predicate ReadActiveConfig(steps: seq<Step>, w: HandlerId, key: Key, callbackUrl: string, i: nat) {
    && i < |steps| && steps[i] == ReadConfig(w) && IsRun(steps[..i])
    && var s := After(steps[..i]);
       key.tenantId in s.configs && s.configs[key.tenantId].isActive && s.configs[key.tenantId].callbackUrl == callbackUrl
  }

  lemma ToEnqueueReadsConfig(s: State, step: Step, w: HandlerId)
    requires Enabled(s, step) && w in Apply(s, step).handlers
    requires w !in s.handlers || s.handlers[w].progress != Apply(s, step).handlers[w].progress
    ensures Apply(s, step).handlers[w].progress.Enqueueing? ==>
              step == ReadConfig(w) && var t := Apply(s, step).handlers[w].key.tenantId;
              t in s.configs && s.configs[t].isActive && s.configs[t].callbackUrl == Apply(s, step).handlers[w].progress.callbackUrl
    ensures Enqueued(Apply(s, step).handlers[w]) ==>
              w in s.handlers && (s.handlers[w].progress.Enqueueing? || Enqueued(s.handlers[w]))
  {
  }

  /** Whoever is about to enqueue, or has enqueued, had read an active config; and it enqueues for that config's URL. */
  lemma {:induction false} EnqueueingReadActiveConfig(steps: seq<Step>, w: HandlerId)
    requires IsRun(steps) && w in After(steps).handlers
    requires After(steps).handlers[w].progress.Enqueueing? || Enqueued(After(steps).handlers[w])
    ensures var me := After(steps).handlers[w];
            exists i: nat, url: string ::
              ReadActiveConfig(steps, w, me.key, url, i) && (me.progress.Enqueueing? ==> me.progress.callbackUrl == url)
  {
    var n := |steps| - 1;
    var earlier, step := steps[..n], steps[n];
    var me := After(steps).handlers[w];
    if w in After(earlier).handlers { HandlerPersists(After(earlier), step, w); }
    if w !in After(earlier).handlers || After(earlier).handlers[w].progress != me.progress {
      ToEnqueueReadsConfig(After(earlier), step, w);
    }
    if me.progress.Enqueueing? && step == ReadConfig(w) {
      assert ReadActiveConfig(steps, w, me.key, me.progress.callbackUrl, n);
    } else {
      EnqueueingReadActiveConfig(earlier, w);
      var i: nat, url: string :| ReadActiveConfig(earlier, w, me.key, url, i)
        && (After(earlier).handlers[w].progress.Enqueueing? ==> After(earlier).handlers[w].progress.callbackUrl == url);
      assert earlier[..i] == steps[..i];
      assert ReadActiveConfig(steps, w, me.key, url, i);
    }
  }

  /**
    One delivery: an event has at most one delivery row, and has one exactly when its winner got
    as far as enqueueing it. It has none only while the winner is still under way, if the winner
    crashed before, or if the winner read its tenant's config and found no active one.
   */
  lemma OneDeliveryByTheWinner(steps: seq<Step>, w: HandlerId)
    requires IsRun(steps) && forall step <- steps :: !step.RemoveEvents?
    requires w in After(steps).handlers && Won(After(steps).handlers[w])
    ensures var s := After(steps);
            var winner := s.handlers[w];
            && OneDeliveryPerEvent(s)
            && (HasDelivery(s, winner.id) <==> Enqueued(winner))
            && (!HasDelivery(s, winner.id) ==>
                  || winner.progress.Got? || winner.progress.Enqueueing? || winner.progress.Crashed?
                  || exists i: nat :: ReadNoActiveConfig(steps, w, winner.key, i))
  {
    RunKeepsInv(steps);
    var s := After(steps);
    if HasDelivery(s, s.handlers[w].id) {
      var d :| d in s.deliveries && s.deliveries[d] == s.handlers[w].id;
      assert DeliveryOk(s, d);
    } else if s.handlers[w].progress.Finished? {
      UnenqueuedReadNoConfig(steps, w);
    }
  }

  // ---------------------------------------------------------------------------------------------
  // The degraded answer.
  // ---------------------------------------------------------------------------------------------

  /** Step i deleted the row of h's key while h was between its insert and its last look-up. */
  ghost predicate RemovedWhileLooking(steps: seq<Step>, h: HandlerId, i: nat) {
    && i < |steps| && steps[i].RemoveEvents? && IsRun(steps[..i])
    && var s := After(steps[..i]);
       && h in s.handlers && s.handlers[h].progress.Looking?
       && exists e <- steps[i].ids :: e in s.events && s.events[e] == s.handlers[h].key
  }

  /** What holds of the tables even when rows are deleted. */
  ghost predicate Fresh(s: State) {
    && UniqueKeys(s.events) && UniqueIds(s)
    && (forall h <- s.handlers :: s.handlers[h].progress.Inserting? ==> s.handlers[h].id !in s.events)
  }

  lemma StepKeepsFresh(s: State, step: Step)
    requires Enabled(s, step) && Fresh(s)
    ensures Fresh(Apply(s, step))
  {
    StepKeepsUniqueKeys(s, step);
    StepKeepsUniqueIds(s, step);
  }

  lemma {:induction false} RunKeepsFresh(steps: seq<Step>)
    requires IsRun(steps)
    ensures Fresh(After(steps))
  {
    if steps != [] {
      RunKeepsFresh(steps[..|steps| - 1]);
      StepKeepsFresh(After(steps[..|steps| - 1]), steps[|steps| - 1]);
    }
  }

  predicate Removes(s: State, step: Step, key: Key) {
    step.RemoveEvents? && exists e <- step.ids :: e in s.events && s.events[e] == key
  }

  /** Only a deletion takes a key's row away. */
  lemma EventStays(s: State, step: Step, key: Key)
    requires Enabled(s, step) && HasEvent(s, key)
    requires step.Insert? ==> s.handlers[step.h].id !in s.events
    ensures HasEvent(Apply(s, step), key) || Removes(s, step, key)
  {
    var e :| e in s.events && s.events[e] == key;
    assert e in Apply(s, step).events ==> Apply(s, step).events[e] == key;
  }

  /** A receiver starts to look when its key has a row, and is degraded when it has none. */
  lemma LookingStep(s: State, step: Step, h: HandlerId)
    requires Enabled(s, step) && h in s.handlers && h in Apply(s, step).handlers
    requires s.handlers[h].progress != Apply(s, step).handlers[h].progress
    ensures Apply(s, step).handlers[h].progress == Looking(false) ==>
              HasEvent(s, s.handlers[h].key) && Apply(s, step).events == s.events
    ensures Apply(s, step).handlers[h].progress == Looking(true) ==>
              s.handlers[h].progress.Looking? && !HasEvent(s, s.handlers[h].key)
    ensures Apply(s, step).handlers[h].progress.Got? && Apply(s, step).handlers[h].progress.degraded ==>
              s.handlers[h].progress.Looking? && !HasEvent(s, s.handlers[h].key)
  {
  }

  predicate Misses(p: Progress) { p.Looking? || (p.Got? && p.degraded) }

  lemma MissStep(s: State, step: Step, h: HandlerId)
    requires Enabled(s, step) && Fresh(s) && h in s.handlers && h in Apply(s, step).handlers
    requires Misses(Apply(s, step).handlers[h].progress)
    ensures var was, now, key := s.handlers[h].progress, Apply(s, step).handlers[h].progress, s.handlers[h].key;
            !Misses(was) || (was.Looking? && HasEvent(s, key)) ==>
              (now.Looking? && HasEvent(Apply(s, step), key)) || (was.Looking? && Removes(s, step, key))
  {
    if s.handlers[h].progress != Apply(s, step).handlers[h].progress { LookingStep(s, step, h); }
    if HasEvent(s, s.handlers[h].key) { EventStays(s, step, s.handlers[h].key); }
  }

  /** While a receiver looks its key has a row, unless one was deleted meanwhile; when degraded, one was. */
  lemma {:induction false} LookingKeepsRow(steps: seq<Step>, h: HandlerId)
    requires IsRun(steps) && h in After(steps).handlers && Misses(After(steps).handlers[h].progress)
    ensures var s := After(steps);
            || (s.handlers[h].progress.Looking? && HasEvent(s, s.handlers[h].key))
            || exists i: nat :: RemovedWhileLooking(steps, h, i)
  {
    var n := |steps| - 1;
    var earlier, step := steps[..n], steps[n];
    var before, after := After(earlier), After(steps);
    RunKeepsFresh(earlier);
    if h in before.handlers {
      HandlerPersists(before, step, h);
      MissStep(before, step, h);
      if Misses(before.handlers[h].progress) {
        LookingKeepsRow(earlier, h);
        if i: nat :| RemovedWhileLooking(earlier, h, i) {
          assert earlier[..i] == steps[..i];
          assert RemovedWhileLooking(steps, h, i);
        }
      }
      if before.handlers[h].progress.Looking? && Removes(before, step, before.handlers[h].key) {
        assert RemovedWhileLooking(steps, h, n);
      }
    }
  }

  /** The degraded answer is only ever given when the row was deleted between the conflict and the look-ups. */
  lemma DegradedMeansDeleted(steps: seq<Step>, h: HandlerId)
    requires IsRun(steps) && h in After(steps).handlers
    requires After(steps).handlers[h].progress.Got? && After(steps).handlers[h].progress.degraded
    ensures exists i: nat :: RemovedWhileLooking(steps, h, i)
  {
    LookingKeepsRow(steps, h);
  }

  /** With a row deleted between the conflict and the look-ups, a receiver does get the degraded answer. */
  lemma DeletionReachesDegraded() returns (steps: seq<Step>)
    ensures IsRun(steps) && At(After(steps), 2, Got("e2", false, true)) && After(steps).events == map[]
  {
    var k := Key("t", "apple", "x");
    steps := Extend([], Arrive(1, k, "e1"));
    steps := Extend(steps, Arrive(2, k, "e2"));
    steps := Extend(steps, Insert(1));
    assert After(steps).events["e1"] == k;
    steps := Extend(steps, Insert(2));
    assert After(steps).events == map["e1" := k] && After(steps).handlers[2] == Handler(k, "e2", Looking(false));
    steps := RemovalDegrades(steps, 2, {"e1"});
  }

  /** And whenever the row is deleted there, the degraded answer is in reach. */
  lemma RemovalDegrades(before: seq<Step>, h: HandlerId, ids: set<EventId>) returns (steps: seq<Step>)
    requires IsRun(before) && h in After(before).handlers && After(before).handlers[h].progress.Looking?
    requires Removes(After(before), RemoveEvents(ids), After(before).handlers[h].key)
    ensures before + [RemoveEvents(ids)] <= steps && IsRun(steps) && After(steps).events == After(before).events - ids
    ensures At(After(steps), h, Got(After(before).handlers[h].id, false, true))
  {
    RunKeepsFresh(before);
    steps := Extend(before, RemoveEvents(ids));
    assert !HasEvent(After(steps), After(before).handlers[h].key);
    if !After(before).handlers[h].progress.retried { steps := Extend(steps, Look(h, None)); }
    steps := Extend(steps, Look(h, None));
  }

  lemma Extend(steps: seq<Step>, step: Step) returns (longer: seq<Step>)
    requires IsRun(steps) && Enabled(After(steps), step)
    ensures longer == steps + [step] && IsRun(longer) && After(longer) == Apply(After(steps), step)
  {
    longer := steps + [step];
    assert longer[..|longer| - 1] == steps;
  }
}
