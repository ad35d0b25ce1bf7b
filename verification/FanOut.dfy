/**
  How many Play calls one tenant's admitted Google lookups can cause: the token bucket of
  app/middleware/rate-limit.ts, the route prices of app/middleware/route-costs.ts and the page cap
  of app/services/google/voided-purchases.ts taken together.
 */
module FanOut {
  import opened Wrappers
  import opened RateLimit
  import opened VoidedScan

  /** A Google lookup: one scan, or a route that makes at most one Play call. */
  datatype Lookup =
    | ScanLookup(upstream: Upstream, token: string, clock: nat -> int)
    | PlainLookup(callsPlay: bool)

  function RateLimitCostFor(l: Lookup): (cost: Number)
    ensures cost == Finite(if l.ScanLookup? then 25.0 else 1.0)
  {
    Finite(if l.ScanLookup? then VOIDED_SCAN_RATE_LIMIT_COST as real else 1.0)
  }

  function PlayCalls(l: Lookup): nat {
    match l
    case ScanLookup(u, token, clock) => Scan(u, token, clock).calls
    case PlainLookup(calls) => if calls then 1 else 0
  }

  /** The requests the limiter sees: each lookup at its clock reading, at its clamped price. */
  ghost predicate Priced(opts: Options, reqs: seq<Request>, lookups: seq<Lookup>) {
    && |reqs| == |lookups|
    && forall j | 0 <= j < |reqs| :: reqs[j].cost == ClampCost(opts, RateLimitCostFor(lookups[j]))
  }

  /** Play calls started by tenant t's lookups admitted among requests i .. k-1. */
  ghost function AdmittedCalls(opts: Options, reqs: seq<Request>, lookups: seq<Lookup>, t: TenantId, i: nat, k: nat): int
    requires i <= k <= |reqs| == |lookups|
  {
    if i == k then 0
    else AdmittedCalls(opts, reqs, lookups, t, i, k - 1)
         + if reqs[k - 1].tenant == t && Admitted(opts, reqs, k - 1) then PlayCalls(lookups[k - 1]) else 0
  }

  /** Two Play calls per token paid. */
  lemma {:induction false} TwoCallsPerToken(opts: Options, reqs: seq<Request>, lookups: seq<Lookup>, t: TenantId, i: nat, k: nat)
    requires opts.burst >= VOIDED_SCAN_RATE_LIMIT_COST as real
    requires Priced(opts, reqs, lookups) && i <= k <= |reqs|
    ensures AdmittedCalls(opts, reqs, lookups, t, i, k) as real <= 2.0 * SpentBy(opts, reqs, t, i, k)
  {
    if i < k {
      TwoCallsPerToken(opts, reqs, lookups, t, i, k - 1);
      var l := lookups[k - 1];
      if l.ScanLookup? { CallsAreBounded(l.upstream, l.token, l.clock, 0, None); }
      assert PlayCalls(l) as real <= 2.0 * reqs[k - 1].cost;
    }
  }

  /** The bound, at one window of one trace. */
  ghost predicate WithinBound(opts: Options, reqs: seq<Request>, lookups: seq<Lookup>, t: TenantId, i: nat, k: nat)
    requires i <= k <= |reqs| == |lookups|
  {
    AdmittedCalls(opts, reqs, lookups, t, i, k) as real <= 2.0 * (opts.burst + Earned(opts, ElapsedBy(reqs, t, i, k)))
  }

  /** The fan-out bound, for every window and tenant of every mixed trace. */
  lemma FanOutIsBounded(opts: Options, reqs: seq<Request>, lookups: seq<Lookup>, t: TenantId, i: nat, k: nat)
    requires ValidOptions(opts) && opts.burst >= VOIDED_SCAN_RATE_LIMIT_COST as real
    requires Priced(opts, reqs, lookups) && i <= k <= |reqs|
    ensures WithinBound(opts, reqs, lookups, t, i, k)
  {
    TwoCallsPerToken(opts, reqs, lookups, t, i, k);
    WindowIsBounded(opts, reqs, t, i, k);
  }

  /** A page chain that never ends and never repeats a cursor. */
  function Endless(c: Cursor): Reply {
    Listed(Page([], Some(if c.None? then "x" else c.value + "x")))
  }

  lemma {:induction false} EndlessUsesEveryPage(page: nat, cursor: Cursor)
    requires page <= VOIDED_SCAN_MAX_PAGES
    ensures ScanFrom(Endless, "p", (_: nat) => 0, page, cursor).calls == VOIDED_SCAN_MAX_PAGES
    decreases VOIDED_SCAN_MAX_PAGES - page
  {
    if page < VOIDED_SCAN_MAX_PAGES {
      EndlessUsesEveryPage(page + 1, NextPageTokenOf(Endless(cursor).page));
    }
  }

  /** Below a burst of 25 the clamp under-prices the scan, and one admitted scan already breaks the bound. */
  lemma SmallBurstBreaksTheBound(opts: Options)
    requires ValidOptions(opts) && 1.0 <= opts.burst < VOIDED_SCAN_RATE_LIMIT_COST as real
    ensures var lookups := [ScanLookup(Endless, "p", (_: nat) => 0)];
            var reqs := [Request("t", 0, ClampCost(opts, RateLimitCostFor(lookups[0])))];
            Priced(opts, reqs, lookups) && !WithinBound(opts, reqs, lookups, "t", 0, 1)
  {
    EndlessUsesEveryPage(0, None);
    var lookups := [ScanLookup(Endless, "p", (_: nat) => 0)];
    var reqs := [Request("t", 0, ClampCost(opts, RateLimitCostFor(lookups[0])))];
    assert Admitted(opts, reqs, 0);
    assert AdmittedCalls(opts, reqs, lookups, "t", 0, 0) == 0;
    OneRequestWindow(reqs[0]);
    EarnedSign(opts, 0);
  }

  lemma OneRequestWindow(r: Request)
    ensures ElapsedBy([r], r.tenant, 0, 1) == 0
  {
    assert Project([r], r.tenant, 0) == [];
  }

  /** For bursts the configuration accepts, the bound holds of every trace iff the burst is at least the scan's price. */
  lemma BoundHoldsIff(opts: Options)
    requires ValidOptions(opts) && opts.burst >= 1.0
    ensures opts.burst >= 25.0 <==>
      forall reqs, lookups, t, i: nat, k: nat | Priced(opts, reqs, lookups) && i <= k <= |reqs| ::
        WithinBound(opts, reqs, lookups, t, i, k)
  {
    if opts.burst >= VOIDED_SCAN_RATE_LIMIT_COST as real {
      forall reqs, lookups, t, i: nat, k: nat | Priced(opts, reqs, lookups) && i <= k <= |reqs|
        ensures WithinBound(opts, reqs, lookups, t, i, k)
      {
        FanOutIsBounded(opts, reqs, lookups, t, i, k);
      }
    } else {
      SmallBurstBreaksTheBound(opts);
    }
  }
}
