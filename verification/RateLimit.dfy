/**
  The per-tenant token bucket of app/middleware/rate-limit.ts.

  Tokens are reals: floating-point rounding is not modelled. The clock is whole milliseconds and
  may step backwards between any two requests.
 */
module RateLimit {
  import opened Wrappers

  type TenantId = string

  datatype Options = Options(refillPerSecond: real, burst: real)

  /** What app/config.ts accepts: both settings are positive. */
  predicate ValidOptions(opts: Options) {
    opts.refillPerSecond > 0.0 && opts.burst > 0.0
  }

  datatype Bucket = Bucket(tokens: real, lastRefillMs: int)

  datatype Decision = Allowed | Refused(retryAfterSeconds: int)

  /** A JavaScript number as the cost function may return it: a finite value, or NaN / an infinity. */
  datatype Number = Finite(value: real) | NonFinite

  datatype Request = Request(tenant: TenantId, nowMs: int, cost: real)

  function Min(a: real, b: real): real { if a < b then a else b }

  function Max(a: real, b: real): real { if a < b then b else a }

  function Ceil(x: real): int { -((-x).Floor) }

  /** Tokens that `elapsedMs` milliseconds earn. */
  function Earned(opts: Options, elapsedMs: int): real {
    elapsedMs as real / 1000.0 * opts.refillPerSecond
  }

  function Lookup(buckets: map<TenantId, Bucket>, t: TenantId): Option<Bucket> {
    if t in buckets then Some(buckets[t]) else None
  }

  /** The bucket a request finds once the lazy refill at `nowMs` is done. */
  function Refilled(opts: Options, prior: Option<Bucket>, nowMs: int): Bucket {
    match prior
    case None => Bucket(opts.burst, nowMs)
    case Some(b) =>
      if nowMs > b.lastRefillMs
      then Bucket(Min(opts.burst, b.tokens + Earned(opts, nowMs - b.lastRefillMs)), nowMs)
      else b
  }

  /** Debit a request that fits; a refusal leaves the bucket alone. */
  function Charged(b: Bucket, cost: real): Bucket {
    if b.tokens < cost then b else b.(tokens := b.tokens - cost)
  }

  function Verdict(opts: Options, b: Bucket, cost: real): Decision
    requires ValidOptions(opts)
  {
    if b.tokens < cost
    then var wait := Ceil((cost - b.tokens) / opts.refillPerSecond);
         Refused(if wait < 1 then 1 else wait)
    else Allowed
  }

  class RateLimiter {
    const opts: Options
    var buckets: map<TenantId, Bucket>

    constructor (opts: Options)
      ensures this.opts == opts && buckets == map[]
    {
      this.opts := opts;
      buckets := map[];
    }

    method Take(tenantId: TenantId, cost: real, nowMs: int) returns (d: Decision)
      requires ValidOptions(opts)
      modifies this`buckets
      ensures var found := Refilled(opts, Lookup(old(buckets), tenantId), nowMs);
              && d == Verdict(opts, found, cost)
              && buckets == old(buckets)[tenantId := Charged(found, cost)]
    {
      var tokens, lastRefillMs := opts.burst, nowMs;
      if tenantId in buckets {
        tokens, lastRefillMs := buckets[tenantId].tokens, buckets[tenantId].lastRefillMs;
        var elapsedSec := Max(0.0, (nowMs - lastRefillMs) as real / 1000.0);
        if elapsedSec > 0.0 {
          tokens := Min(opts.burst, tokens + elapsedSec * opts.refillPerSecond);
          lastRefillMs := nowMs;
        }
      }
      buckets := buckets[tenantId := Bucket(tokens, lastRefillMs)];
      if tokens < cost {
        var retryAfterSeconds := Ceil((cost - tokens) / opts.refillPerSecond);
        return Refused(if retryAfterSeconds < 1 then 1 else retryAfterSeconds);
      }
      buckets := buckets[tenantId := Bucket(tokens - cost, lastRefillMs)];
      return Allowed;
    }

    /** The middleware: price the route, then take. */
    method Middleware(tenantId: TenantId, requested: Number, nowMs: int) returns (d: Decision)
      requires ValidOptions(opts)
      modifies this`buckets
      ensures var found := Refilled(opts, Lookup(old(buckets), tenantId), nowMs);
              var cost := ClampCost(opts, requested);
              && d == Verdict(opts, found, cost)
              && buckets == old(buckets)[tenantId := Charged(found, cost)]
    {
      d := Take(tenantId, ClampCost(opts, requested), nowMs);
    }
  }

  /** The cost charged for what the cost function answered; it is always in the range the bucket can serve. */
  function ClampCost(opts: Options, requested: Number): (cost: real)
    ensures requested.NonFinite? || opts.burst < 1.0 ==> cost == 1.0
    ensures requested.Finite? && opts.burst >= 1.0 ==>
              && (requested.value < 1.0 ==> cost == 1.0)
              && (1.0 <= requested.value <= opts.burst ==> cost == requested.value)
              && (requested.value > opts.burst ==> cost == opts.burst)
  {
    match requested
    case NonFinite => 1.0
    case Finite(v) => Max(1.0, Min(opts.burst, v))
  }

  // ---------------------------------------------------------------------------------------------
  // Runs: the limiter's whole map after the first n requests of a trace.
  // ---------------------------------------------------------------------------------------------

  ghost function After(opts: Options, reqs: seq<Request>, n: nat): map<TenantId, Bucket>
    requires n <= |reqs|
  {
    if n == 0 then map[] else
    var m := After(opts, reqs, n - 1);
    var r := reqs[n - 1];
    m[r.tenant := Charged(Refilled(opts, Lookup(m, r.tenant), r.nowMs), r.cost)]
  }

  /** The bucket request k is judged against. */
  ghost function Found(opts: Options, reqs: seq<Request>, k: nat): Bucket
    requires k < |reqs|
  {
    Refilled(opts, Lookup(After(opts, reqs, k), reqs[k].tenant), reqs[k].nowMs)
  }

  ghost predicate Admitted(opts: Options, reqs: seq<Request>, k: nat)
    requires k < |reqs|
  {
    !(Found(opts, reqs, k).tokens < reqs[k].cost)
  }

  /** Costs admitted among requests i .. k-1. */
  ghost function Spent(opts: Options, reqs: seq<Request>, i: nat, k: nat): real
    requires i <= k <= |reqs|
  {
    if i == k then 0.0
    else Spent(opts, reqs, i, k - 1) + if Admitted(opts, reqs, k - 1) then reqs[k - 1].cost else 0.0
  }

  /** Running maximum of the clock readings: what survives a step back. */
  ghost function HighWater(reqs: seq<Request>, k: nat): int
    requires k < |reqs|
  {
    if k == 0 then reqs[0].nowMs
    else var prev := HighWater(reqs, k - 1); if reqs[k].nowMs > prev then reqs[k].nowMs else prev
  }

  /** What the window that opens at request i leaves for request k. */
  ghost function Allowance(opts: Options, reqs: seq<Request>, i: nat, k: nat): real
    requires i <= k < |reqs|
  {
    opts.burst + Earned(opts, HighWater(reqs, k) - HighWater(reqs, i)) - Spent(opts, reqs, i, k)
  }

  ghost predicate OneTenant(reqs: seq<Request>, t: TenantId) {
    forall k | 0 <= k < |reqs| :: reqs[k].tenant == t && reqs[k].cost >= 0.0
  }

  lemma EarnedAdds(opts: Options, a: int, b: int)
    ensures Earned(opts, a + b) == Earned(opts, a) + Earned(opts, b)
  {
    var r := opts.refillPerSecond;
    assert (a + b) as real / 1000.0 == a as real / 1000.0 + b as real / 1000.0;
  }

  lemma EarnedSign(opts: Options, a: int)
    requires ValidOptions(opts)
    ensures a > 0 ==> Earned(opts, a) > 0.0
    ensures Earned(opts, 0) == 0.0
  {
  }

  /** Between consecutive requests every window's allowance moves as the bucket does. */
  lemma AllowanceStep(opts: Options, reqs: seq<Request>, i: nat, k: nat)
    requires i <= k && k + 1 < |reqs|
    ensures Allowance(opts, reqs, i, k + 1) ==
            Allowance(opts, reqs, i, k)
            - (if Admitted(opts, reqs, k) then reqs[k].cost else 0.0)
            + Earned(opts, HighWater(reqs, k + 1) - HighWater(reqs, k))
  {
    EarnedAdds(opts, HighWater(reqs, k) - HighWater(reqs, i), HighWater(reqs, k + 1) - HighWater(reqs, k));
  }

  /**
    Exact refinement: the lazily refilled bucket holds, before request k, exactly the minimum
    allowance over all windows that end at k.
   */
  lemma {:induction false} BucketIsMinimumOverWindows(opts: Options, reqs: seq<Request>, t: TenantId, k: nat)
    requires ValidOptions(opts) && OneTenant(reqs, t) && k < |reqs|
    ensures Found(opts, reqs, k).lastRefillMs == HighWater(reqs, k)
    ensures forall i | 0 <= i <= k :: Found(opts, reqs, k).tokens <= Allowance(opts, reqs, i, k)
    ensures exists i :: 0 <= i <= k && Found(opts, reqs, k).tokens == Allowance(opts, reqs, i, k)
  {
    EarnedSign(opts, 0);
    if k == 0 {
      assert Found(opts, reqs, 0).tokens == Allowance(opts, reqs, 0, 0);
    } else {
      BucketIsMinimumOverWindows(opts, reqs, t, k - 1);
      var before := Found(opts, reqs, k - 1);
      var spent := if Admitted(opts, reqs, k - 1) then reqs[k - 1].cost else 0.0;
      var gap := HighWater(reqs, k) - HighWater(reqs, k - 1);
      EarnedSign(opts, gap);
      assert Lookup(After(opts, reqs, k), t) == Some(before.(tokens := before.tokens - spent));
      assert Found(opts, reqs, k).tokens == Min(opts.burst, before.tokens - spent + Earned(opts, gap)) by {
        assert before.tokens <= Allowance(opts, reqs, k - 1, k - 1);
      }
      forall i | 0 <= i < k
        ensures Allowance(opts, reqs, i, k) == Allowance(opts, reqs, i, k - 1) - spent + Earned(opts, gap)
      {
        AllowanceStep(opts, reqs, i, k - 1);
      }
      assert Allowance(opts, reqs, k, k) == opts.burst;
      var w :| 0 <= w <= k - 1 && before.tokens == Allowance(opts, reqs, w, k - 1);
      assert Found(opts, reqs, k).tokens == Allowance(opts, reqs, w, k)
          || Found(opts, reqs, k).tokens == Allowance(opts, reqs, k, k);
    }
  }

  lemma {:induction false} TokensInRange(opts: Options, reqs: seq<Request>, t: TenantId, k: nat)
    requires ValidOptions(opts) && OneTenant(reqs, t) && k < |reqs|
    ensures 0.0 <= Found(opts, reqs, k).tokens <= opts.burst
  {
    if k > 0 {
      TokensInRange(opts, reqs, t, k - 1);
      var b := Charged(Found(opts, reqs, k - 1), reqs[k - 1].cost);
      assert Lookup(After(opts, reqs, k), t) == Some(b);
      EarnedSign(opts, reqs[k].nowMs - b.lastRefillMs);
    }
  }

  // ---------------------------------------------------------------------------------------------
  // Many tenants.
  // ---------------------------------------------------------------------------------------------

  /** Tenant t's own requests among the first n. */
  ghost function Project(reqs: seq<Request>, t: TenantId, n: nat): (own: seq<Request>)
    requires n <= |reqs|
  {
    if n == 0 then []
    else if reqs[n - 1].tenant == t then Project(reqs, t, n - 1) + [reqs[n - 1]]
    else Project(reqs, t, n - 1)
  }

  lemma {:induction false} AfterIgnoresLaterRequests(opts: Options, reqs: seq<Request>, more: seq<Request>, n: nat)
    requires n <= |reqs|
    ensures After(opts, reqs + more, n) == After(opts, reqs, n)
  {
    if n > 0 {
      AfterIgnoresLaterRequests(opts, reqs, more, n - 1);
      assert (reqs + more)[n - 1] == reqs[n - 1];
    }
  }

  /** A tenant's bucket is the one its own requests alone would have left. */
  lemma {:induction false} TenantsAreIsolated(opts: Options, reqs: seq<Request>, t: TenantId, n: nat)
    requires n <= |reqs|
    ensures var own := Project(reqs, t, n);
            Lookup(After(opts, reqs, n), t) == Lookup(After(opts, own, |own|), t)
  {
    if n > 0 {
      TenantsAreIsolated(opts, reqs, t, n - 1);
      var own := Project(reqs, t, n - 1);
      if reqs[n - 1].tenant == t {
        AfterIgnoresLaterRequests(opts, own, [reqs[n - 1]], |own|);
      }
    }
  }

  lemma {:induction false} ProjectIsOneTenant(reqs: seq<Request>, t: TenantId, n: nat)
    requires n <= |reqs| && forall r <- reqs :: r.cost >= 0.0
    ensures OneTenant(Project(reqs, t, n), t)
  {
    if n > 0 { ProjectIsOneTenant(reqs, t, n - 1); }
  }

  /** Request `last` fits the window that opens at request i: what the window already admitted, plus its own cost. */
  ghost predicate WindowFits(opts: Options, own: seq<Request>, i: nat, last: nat)
    requires i <= last < |own|
  {
    own[last].cost + Spent(opts, own, i, last)
    <= opts.burst + Earned(opts, HighWater(own, last) - HighWater(own, i))
  }

  lemma OneTenantAdmission(opts: Options, own: seq<Request>, t: TenantId, last: nat)
    requires ValidOptions(opts) && OneTenant(own, t) && last < |own|
    ensures Admitted(opts, own, last) <==> forall i | 0 <= i <= last :: WindowFits(opts, own, i, last)
  {
    BucketIsMinimumOverWindows(opts, own, t, last);
    var found := Found(opts, own, last).tokens;
    forall i | 0 <= i <= last
      ensures WindowFits(opts, own, i, last) <==> own[last].cost <= Allowance(opts, own, i, last)
      ensures found <= Allowance(opts, own, i, last)
    {
    }
    var w :| 0 <= w <= last && found == Allowance(opts, own, w, last);
    assert WindowFits(opts, own, w, last) <==> own[last].cost <= found;
  }

  /**
    The limiter's law, for every request of every interleaved trace: request k is admitted iff
    each window of its own tenant's requests that ends at it fits `burst + rate * elapsed`.
   */
  lemma AdmittedIffEveryWindowFits(opts: Options, reqs: seq<Request>, k: nat)
    requires ValidOptions(opts) && k < |reqs| && forall r <- reqs :: r.cost >= 0.0
    ensures var own := Project(reqs, reqs[k].tenant, k + 1);
            var last := |own| - 1;
            && last >= 0 && own[last] == reqs[k]
            && (Admitted(opts, reqs, k) <==> forall i | 0 <= i <= last :: WindowFits(opts, own, i, last))
  {
    var t := reqs[k].tenant;
    var own := Project(reqs, t, k + 1);
    OwnAdmission(opts, reqs, k);
    ProjectIsOneTenant(reqs, t, k + 1);
    OneTenantAdmission(opts, own, t, |own| - 1);
  }

  /** A request is admitted in a mixed trace iff it is among its tenant's own requests. */
  lemma OwnAdmission(opts: Options, reqs: seq<Request>, k: nat)
    requires k < |reqs|
    ensures var own := Project(reqs, reqs[k].tenant, k + 1);
            var last := |own| - 1;
            last >= 0 && own[last] == reqs[k] && (Admitted(opts, own, last) <==> Admitted(opts, reqs, k))
  {
    var t := reqs[k].tenant;
    var own := Project(reqs, t, k);
    TenantsAreIsolated(opts, reqs, t, k);
    AfterIgnoresLaterRequests(opts, own, [reqs[k]], |own|);
  }

  lemma OneTenantWindow(opts: Options, own: seq<Request>, t: TenantId, i: nat, k: nat)
    requires ValidOptions(opts) && OneTenant(own, t) && i <= k < |own|
    ensures Spent(opts, own, i, k + 1) <= opts.burst + Earned(opts, HighWater(own, k) - HighWater(own, i))
  {
    BucketIsMinimumOverWindows(opts, own, t, k);
    TokensInRange(opts, own, t, k);
    assert Found(opts, own, k).tokens <= Allowance(opts, own, i, k);
  }

  /** Costs of tenant t admitted among requests i .. k-1 of a mixed trace. */
  ghost function SpentBy(opts: Options, reqs: seq<Request>, t: TenantId, i: nat, k: nat): real
    requires i <= k <= |reqs|
  {
    if i == k then 0.0
    else SpentBy(opts, reqs, t, i, k - 1)
         + if reqs[k - 1].tenant == t && Admitted(opts, reqs, k - 1) then reqs[k - 1].cost else 0.0
  }

  /** What the clock of tenant t's own requests has advanced from its first to its last request among i .. k-1. */
  ghost function ElapsedBy(reqs: seq<Request>, t: TenantId, i: nat, k: nat): int
    requires i <= k <= |reqs|
  {
    var own, first := Project(reqs, t, k), |Project(reqs, t, i)|;
    if first < |own| then HighWater(own, |own| - 1) - HighWater(own, first) else 0
  }

  lemma {:induction false} SpentIgnoresLaterRequests(opts: Options, own: seq<Request>, more: seq<Request>, i: nat, k: nat)
    requires i <= k <= |own|
    ensures Spent(opts, own + more, i, k) == Spent(opts, own, i, k)
  {
    if i < k {
      SpentIgnoresLaterRequests(opts, own, more, i, k - 1);
      AfterIgnoresLaterRequests(opts, own, more, k - 1);
    }
  }

  lemma {:induction false} ProjectGrows(reqs: seq<Request>, t: TenantId, i: nat, k: nat)
    requires i <= k <= |reqs|
    ensures Project(reqs, t, i) <= Project(reqs, t, k)
  {
    if i < k { ProjectGrows(reqs, t, i, k - 1); }
  }

  lemma {:induction false} SpentByIsOwnSpent(opts: Options, reqs: seq<Request>, t: TenantId, i: nat, k: nat)
    requires i <= k <= |reqs|
    ensures var own, first := Project(reqs, t, k), |Project(reqs, t, i)|;
            first <= |own| && SpentBy(opts, reqs, t, i, k) == Spent(opts, own, first, |own|)
  {
    ProjectGrows(reqs, t, i, k);
    if i < k {
      SpentByIsOwnSpent(opts, reqs, t, i, k - 1);
      if reqs[k - 1].tenant == t {
        var before := Project(reqs, t, k - 1);
        SpentIgnoresLaterRequests(opts, before, [reqs[k - 1]], |Project(reqs, t, i)|, |before|);
        OwnAdmission(opts, reqs, k - 1);
      }
    }
  }

  /** No window of any trace admits more of one tenant than `burst + rate * elapsed`. */
  lemma WindowIsBounded(opts: Options, reqs: seq<Request>, t: TenantId, i: nat, k: nat)
    requires ValidOptions(opts) && i <= k <= |reqs| && forall r <- reqs :: r.cost >= 0.0
    ensures SpentBy(opts, reqs, t, i, k) <= opts.burst + Earned(opts, ElapsedBy(reqs, t, i, k))
  {
    var own, first := Project(reqs, t, k), |Project(reqs, t, i)|;
    SpentByIsOwnSpent(opts, reqs, t, i, k);
    ProjectIsOneTenant(reqs, t, k);
    EarnedSign(opts, 0);
    if first < |own| { OneTenantWindow(opts, own, t, first, |own| - 1); }
  }

  // ---------------------------------------------------------------------------------------------
  // Retry-After.
  // ---------------------------------------------------------------------------------------------

  /** The bucket after polls that debit nothing (every one of them refused), at whatever clock readings. */
  ghost function Polled(opts: Options, b: Bucket, polls: seq<int>): Bucket {
    if polls == [] then b
    else Refilled(opts, Some(Polled(opts, b, polls[..|polls| - 1])), polls[|polls| - 1])
  }

  /** The latest of the poll readings and a final one. */
  function Latest(polls: seq<int>, finalMs: int): (latest: int)
    ensures latest >= finalMs && forall p <- polls :: p <= latest
    ensures latest == finalMs || latest in polls
  {
    if polls == [] then finalMs
    else
      var earlier, p := Latest(polls[..|polls| - 1], finalMs), polls[|polls| - 1];
      assert forall q <- polls :: q in polls[..|polls| - 1] || q == p;
      if p > earlier then p else earlier
  }

  lemma RefillsCompose(opts: Options, b: Bucket, first: int, second: int)
    requires ValidOptions(opts) && b.tokens <= opts.burst
    ensures Refilled(opts, Some(Refilled(opts, Some(b), first)), second)
         == Refilled(opts, Some(b), if first > second then first else second)
    ensures Refilled(opts, Some(b), first).tokens <= opts.burst
  {
    EarnedAdds(opts, first - b.lastRefillMs, second - first);
    EarnedSign(opts, second - first);
    EarnedSign(opts, first - b.lastRefillMs);
  }

  /** Refilling piecewise, at whatever clock readings, earns what refilling once at the latest of them does. */
  lemma {:induction false} PollsCostNothing(opts: Options, b: Bucket, polls: seq<int>, finalMs: int)
    requires ValidOptions(opts) && b.tokens <= opts.burst
    ensures Polled(opts, b, polls).tokens <= opts.burst
    ensures Refilled(opts, Some(Polled(opts, b, polls)), finalMs) == Refilled(opts, Some(b), Latest(polls, finalMs))
  {
    if polls != [] {
      var earlier, p := polls[..|polls| - 1], polls[|polls| - 1];
      PollsCostNothing(opts, b, earlier, p);
      PollsCostNothing(opts, b, earlier, finalMs);
      RefillsCompose(opts, Polled(opts, b, earlier), p, finalMs);
      if p > finalMs { LatestOfLater(earlier, p, finalMs); } else { LatestOfEarlier(earlier, p, finalMs); }
    }
  }

  lemma {:induction false} LatestOfLater(polls: seq<int>, p: int, finalMs: int)
    requires p > finalMs
    ensures Latest(polls, p) == if p > Latest(polls, finalMs) then p else Latest(polls, finalMs)
  {
    if polls != [] { LatestOfLater(polls[..|polls| - 1], p, finalMs); }
  }

  lemma LatestOfEarlier(polls: seq<int>, p: int, finalMs: int)
    requires p <= finalMs
    ensures p <= Latest(polls, finalMs)
  {
  }

  lemma EarnedWhole(opts: Options, seconds: int)
    ensures Earned(opts, 1000 * seconds) == seconds as real * opts.refillPerSecond
  {
    assert (1000 * seconds) as real / 1000.0 == seconds as real;
  }

  /** A wait of s seconds covers a deficit exactly from the quotient on. */
  lemma WaitCovers(deficit: real, rate: real, s: int)
    requires rate > 0.0
    ensures s as real * rate >= deficit <==> s >= Ceil(deficit / rate)
  {
    var q := deficit / rate;
    assert q * rate == deficit;
    if s as real >= q {
      assert s as real * rate >= q * rate;
    } else {
      assert s as real * rate < q * rate;
    }
  }

  /**
    The Retry-After answer is exact. Waited out from the last refill, with any refused polls in
    between, it admits the request iff the cost fits the burst at all; no smaller whole number of
    seconds that is at least 1 does.
   */
  lemma RetryAfterIsExact(opts: Options, b: Bucket, cost: real, polls: seq<int>, seconds: int)
    requires ValidOptions(opts) && 0.0 <= b.tokens <= opts.burst && b.tokens < cost
    requires 1 <= seconds <= Verdict(opts, b, cost).retryAfterSeconds
    requires forall i | 0 <= i < |polls| :: polls[i] <= b.lastRefillMs + 1000 * seconds
    ensures var retried := Refilled(opts, Some(Polled(opts, b, polls)), b.lastRefillMs + 1000 * seconds);
            Verdict(opts, retried, cost).Allowed?
            <==> seconds == Verdict(opts, b, cost).retryAfterSeconds && cost <= opts.burst
  {
    var at := b.lastRefillMs + 1000 * seconds;
    PollsCostNothing(opts, b, polls, at);
    assert Latest(polls, at) == at;
    WaitedOut(opts, b, cost, seconds);
    AllowedIff(opts, Refilled(opts, Some(b), at), cost);
  }

  lemma AllowedIff(opts: Options, b: Bucket, cost: real)
    requires ValidOptions(opts)
    ensures Verdict(opts, b, cost).Allowed? <==> b.tokens >= cost
  {
  }

  lemma WaitedOut(opts: Options, b: Bucket, cost: real, seconds: int)
    requires ValidOptions(opts) && b.tokens <= opts.burst && b.tokens < cost && seconds >= 1
    ensures Refilled(opts, Some(b), b.lastRefillMs + 1000 * seconds).tokens >= cost
            <==> seconds >= Verdict(opts, b, cost).retryAfterSeconds && cost <= opts.burst
  {
    WaitIsCeiling(opts, b, cost);
    RefilledAfter(opts, b, seconds);
    WaitCovers(cost - b.tokens, opts.refillPerSecond, seconds);
    CappedFits(opts.burst, b.tokens, seconds as real * opts.refillPerSecond, cost);
  }

  /** The refusal's answer is the quotient rounded up: the floor of 1 never shows. */
  lemma WaitIsCeiling(opts: Options, b: Bucket, cost: real)
    requires ValidOptions(opts) && b.tokens < cost
    ensures Verdict(opts, b, cost) == Refused(Ceil((cost - b.tokens) / opts.refillPerSecond))
  {
    WaitIsPositive(cost - b.tokens, opts.refillPerSecond);
  }

  lemma CappedFits(burst: real, tokens: real, earned: real, cost: real)
    ensures Min(burst, tokens + earned) >= cost <==> earned >= cost - tokens && cost <= burst
  {
  }

  lemma RefilledAfter(opts: Options, b: Bucket, seconds: int)
    requires seconds >= 1
    ensures Refilled(opts, Some(b), b.lastRefillMs + 1000 * seconds).tokens
         == Min(opts.burst, b.tokens + seconds as real * opts.refillPerSecond)
  {
    EarnedWhole(opts, seconds);
  }

  lemma WaitIsPositive(deficit: real, rate: real)
    requires deficit > 0.0 && rate > 0.0
    ensures Ceil(deficit / rate) >= 1
  {
  }
}
