/**
  The TTL cache of app/lib/ttl-cache.ts: lazy expiry and in-flight deduplication.

  A loader is an asynchronous computation. Its completion runs two callbacks at two later moments,
  between which anything else may run: on success the value is stored (`OnLoaded`), and then in any
  case the in-flight entry is dropped (`OnSettled`). A promise is named by its loader's index.
 */
module TtlCache {
  import opened Wrappers

  type Key = string

  datatype Entry<+V> = Entry(value: V, expiresAt: int)

  datatype Phase = Running | Loaded | Failed | Settled

  datatype Loader = Loader(key: Key, phase: Phase)

  datatype State<V> = State(store: map<Key, Entry<V>>, inflight: map<Key, nat>, loaders: seq<Loader>)

  /** What `loadOrFetch` hands back: a cached value, or the promise of a loader. */
  datatype Lookup<+V> = Hit(value: V) | Wait(promise: nat)

  datatype Op<+V> =
    | Get(key: Key, at: int)
    | Set(key: Key, value: V, at: int)
    | Delete(key: Key)
    | Clear
    | LoadOrFetch(key: Key, at: int)
    | LoadSucceeds(promise: nat, key: Key, value: V, at: int)
    | LoadFails(promise: nat, key: Key)
    | Settle(promise: nat, key: Key)

  function Init<V>(): State<V> { State(map[], map[], []) }

  function GetResult<V>(s: State<V>, key: Key, at: int): Option<V> {
    if key in s.store && s.store[key].expiresAt > at then Some(s.store[key].value) else None
  }

  function AfterGet<V>(s: State<V>, key: Key, at: int): State<V> {
    if key in s.store && s.store[key].expiresAt <= at then s.(store := s.store - {key}) else s
  }

  function AfterSet<V>(s: State<V>, ttlMs: int, key: Key, value: V, at: int): State<V> {
    s.(store := s.store[key := Entry(value, at + ttlMs)])
  }

  function LoadOrFetchResult<V>(s: State<V>, key: Key, at: int): Lookup<V> {
    match GetResult(s, key, at)
    case Some(v) => Hit(v)
    case None => Wait(if key in s.inflight then s.inflight[key] else |s.loaders|)
  }

  function AfterLoadOrFetch<V>(s: State<V>, key: Key, at: int): State<V> {
    var s' := AfterGet(s, key, at);
    if GetResult(s, key, at).Some? || key in s.inflight then s'
    else s'.(inflight := s'.inflight[key := |s.loaders|], loaders := s.loaders + [Loader(key, Running)])
  }

  function InPhase<V>(s: State<V>, promise: nat, phase: Phase): State<V>
    requires promise < |s.loaders|
  {
    s.(loaders := s.loaders[promise := s.loaders[promise].(phase := phase)])
  }

  /** Callbacks only run for a loader in the right phase, under its own key. */
  predicate Enabled<V>(s: State<V>, op: Op<V>) {
    match op
    case LoadSucceeds(p, key, _, _) => p < |s.loaders| && s.loaders[p] == Loader(key, Running)
    case LoadFails(p, key) => p < |s.loaders| && s.loaders[p] == Loader(key, Running)
    case Settle(p, key) => p < |s.loaders| && s.loaders[p].key == key && s.loaders[p].phase in {Loaded, Failed}
    case _ => true
  }

  function Step<V>(s: State<V>, ttlMs: int, op: Op<V>): State<V>
    requires Enabled(s, op)
  {
    match op
    case Get(key, at) => AfterGet(s, key, at)
    case Set(key, value, at) => AfterSet(s, ttlMs, key, value, at)
    case Delete(key) => s.(store := s.store - {key})
    case Clear => s.(store := map[], inflight := map[])
    case LoadOrFetch(key, at) => AfterLoadOrFetch(s, key, at)
    case LoadSucceeds(p, key, value, at) => AfterSet(InPhase(s, p, Loaded), ttlMs, key, value, at)
    case LoadFails(p, key) => InPhase(s, p, Failed)
    case Settle(p, key) => InPhase(s, p, Settled).(inflight := s.inflight - {key})
  }

  class Cache<V> {
    const ttlMs: int
    var store: map<Key, Entry<V>>
    var inflight: map<Key, nat>
    var loaders: seq<Loader>

    function Abs(): State<V>
      reads this
    {
      State(store, inflight, loaders)
    }

    constructor (ttlMs: int)
      ensures this.ttlMs == ttlMs && Abs() == Init()
    {
      this.ttlMs := ttlMs;
      store, inflight, loaders := map[], map[], [];
    }

    method GetAt(key: Key, now: int) returns (value: Option<V>)
      modifies this
      ensures value == GetResult(old(Abs()), key, now)
      ensures var hit := key in old(store) && now < old(store)[key].expiresAt;
              && value == (if hit then Some(old(store)[key].value) else None)
              && store == (if hit then old(store) else old(store) - {key})
              && inflight == old(inflight) && loaders == old(loaders)
      ensures Abs() == Step(old(Abs()), ttlMs, Get(key, now))
    {
      if key !in store { return None; }
      var entry := store[key];
      if entry.expiresAt <= now {
        store := store - {key};
        return None;
      }
      return Some(entry.value);
    }

    method SetAt(key: Key, value: V, now: int)
      modifies this
      ensures Abs() == Step(old(Abs()), ttlMs, Set(key, value, now))
      ensures store == old(store)[key := Entry(value, now + ttlMs)] && inflight == old(inflight) && loaders == old(loaders)
    {
      store := store[key := Entry(value, now + ttlMs)];
    }

    method DeleteKey(key: Key)
      modifies this
      ensures Abs() == Step(old(Abs()), ttlMs, Delete(key))
      ensures store == old(store) - {key} && inflight == old(inflight) && loaders == old(loaders)
    {
      store := store - {key};
    }

    method ClearAll()
      modifies this
      ensures Abs() == Step(old(Abs()), ttlMs, Clear)
      ensures store == map[] && inflight == map[] && loaders == old(loaders)
    {
      store, inflight := map[], map[];
    }

    method LoadOrFetchAt(key: Key, now: int) returns (r: Lookup<V>)
      modifies this
      ensures r == LoadOrFetchResult(old(Abs()), key, now)
      ensures if key in old(store) && now < old(store)[key].expiresAt then
                r == Hit(old(store)[key].value) && Abs() == old(Abs())
              else
                && store == old(store) - {key}
                && if key in old(inflight) then
                     r == Wait(old(inflight)[key]) && inflight == old(inflight) && loaders == old(loaders)
                   else
                     && r == Wait(|old(loaders)|) && inflight == old(inflight)[key := |old(loaders)|]
                     && loaders == old(loaders) + [Loader(key, Running)]
      ensures Abs() == Step(old(Abs()), ttlMs, LoadOrFetch(key, now))
    {
      var cached := GetAt(key, now);
      if cached.Some? { return Hit(cached.value); }
      if key in inflight { return Wait(inflight[key]); }
      var promise := |loaders|;
      loaders := loaders + [Loader(key, Running)];
      inflight := inflight[key := promise];
      return Wait(promise);
    }

    /** The loader resolved: the `then` callback. */
    method OnLoaded(promise: nat, value: V, now: int)
      requires promise < |loaders| && loaders[promise].phase == Running
      modifies this
      ensures Abs() == Step(old(Abs()), ttlMs, LoadSucceeds(promise, old(loaders)[promise].key, value, now))
      ensures store == old(store)[old(loaders)[promise].key := Entry(value, now + ttlMs)] && inflight == old(inflight)
    {
      var key := loaders[promise].key;
      loaders := loaders[promise := Loader(key, Loaded)];
      SetAt(key, value, now);
    }

    /** The `finally` callback. */
    method OnSettled(promise: nat)
      requires promise < |loaders| && loaders[promise].phase in {Loaded, Failed}
      modifies this
      ensures Abs() == Step(old(Abs()), ttlMs, Settle(promise, old(loaders)[promise].key))
      ensures store == old(store) && inflight == old(inflight) - {old(loaders)[promise].key}
    {
      var key := loaders[promise].key;
      loaders := loaders[promise := Loader(key, Settled)];
      inflight := inflight - {key};
    }
  }

  // ---------------------------------------------------------------------------------------------
  // Runs and their histories.
  // ---------------------------------------------------------------------------------------------

  /** Every operation of the run was possible when it happened. */
  ghost predicate IsRun<V>(ttlMs: int, ops: seq<Op<V>>)
    decreases |ops|, 0
  {
    ops == [] ||
    (IsRun(ttlMs, ops[..|ops| - 1]) && Enabled(Run(ttlMs, ops[..|ops| - 1]), ops[|ops| - 1]))
  }

  ghost function Run<V>(ttlMs: int, ops: seq<Op<V>>): State<V>
    requires IsRun(ttlMs, ops)
    decreases |ops|, 1
  {
    if ops == [] then Init()
    else Step(Run(ttlMs, ops[..|ops| - 1]), ttlMs, ops[|ops| - 1])
  }

  function TimeOf<V>(op: Op<V>): Option<int> {
    match op
    case Get(_, at) => Some(at)
    case Set(_, _, at) => Some(at)
    case LoadOrFetch(_, at) => Some(at)
    case LoadSucceeds(_, _, _, at) => Some(at)
    case _ => None
  }

  /** No reading in the run is later than `now`. */
  ghost predicate By<V>(ops: seq<Op<V>>, now: int) {
    forall op <- ops :: TimeOf(op).Some? ==> TimeOf(op).value <= now
  }

  /** The clock never steps back during the run. */
  ghost predicate Monotone<V>(ops: seq<Op<V>>) {
    forall i | 0 <= i < |ops| :: TimeOf(ops[i]).Some? ==> By(ops[..i], TimeOf(ops[i]).value)
  }

  /** The last value stored under the key and when, unless it was deleted since. */
  ghost function LastStored<V>(ops: seq<Op<V>>, key: Key): Option<(V, int)> {
    if ops == [] then None else
    var earlier := LastStored(ops[..|ops| - 1], key);
    match ops[|ops| - 1]
    case Set(k, v, at) => if k == key then Some((v, at)) else earlier
    case LoadSucceeds(_, k, v, at) => if k == key then Some((v, at)) else earlier
    case Delete(k) => if k == key then None else earlier
    case Clear => None
    case _ => earlier
  }

  /** What an eagerly expiring cache with this history answers at `now`. */
  ghost function Live<V>(ttlMs: int, ops: seq<Op<V>>, key: Key, now: int): Option<V> {
    match LastStored(ops, key)
    case None => None
    case Some((v, at)) => if now < at + ttlMs then Some(v) else None
  }

  lemma {:induction false} StoreMatchesHistory<V>(ttlMs: int, ops: seq<Op<V>>, key: Key, now: int)
    requires IsRun(ttlMs, ops) && Monotone(ops) && By(ops, now)
    ensures var s := Run(ttlMs, ops);
            match LastStored(ops, key)
            case None => key !in s.store
            case Some((v, at)) =>
              if key in s.store then s.store[key] == Entry(v, at + ttlMs) else at + ttlMs <= now
  {
    if ops != [] {
      var earlier, op := ops[..|ops| - 1], ops[|ops| - 1];
      assert Monotone(earlier) by {
        forall i | 0 <= i < |earlier| ensures earlier[..i] == ops[..i] {}
      }
      assert By(earlier, now);
      StoreMatchesHistory(ttlMs, earlier, key, now);
      if TimeOf(op).Some? {
        assert By(earlier, TimeOf(op).value);
        StoreMatchesHistory(ttlMs, earlier, key, TimeOf(op).value);
      }
    }
  }

  /**
    Lazy expiry is eager expiry: at the end of any run under a monotone clock, `get` and
    `loadOrFetch` answer exactly the last value stored under the key, if it is under ttlMs old and
    not deleted since.
   */
  lemma {:induction false} GetAgreesWithHistory<V>(ttlMs: int, ops: seq<Op<V>>, key: Key, now: int)
    requires IsRun(ttlMs, ops) && Monotone(ops) && By(ops, now)
    ensures GetResult(Run(ttlMs, ops), key, now) == Live(ttlMs, ops, key, now)
    ensures var r := LoadOrFetchResult(Run(ttlMs, ops), key, now);
            match Live(ttlMs, ops, key, now) case Some(v) => r == Hit(v) case None => r.Wait?
  {
    StoreMatchesHistory(ttlMs, ops, key, now);
  }

  // ---------------------------------------------------------------------------------------------
  // In-flight deduplication.
  // ---------------------------------------------------------------------------------------------

  ghost predicate Unfinished<V>(s: State<V>, p: nat, key: Key) {
    p < |s.loaders| && s.loaders[p].key == key && s.loaders[p].phase != Settled
  }

  /** The in-flight map names exactly the key's unfinished loader. */
  ghost predicate Tracked<V>(s: State<V>, key: Key) {
    forall p: nat :: Unfinished(s, p, key) <==> key in s.inflight && s.inflight[key] == p
  }

  /** `clear` is only called while the key is not loading; other keys may be. */
  ghost predicate ClearsWhenIdle<V>(ttlMs: int, ops: seq<Op<V>>, key: Key)
    requires IsRun(ttlMs, ops)
  {
    ops == [] ||
    (&& ClearsWhenIdle(ttlMs, ops[..|ops| - 1], key)
     && (ops[|ops| - 1].Clear? ==> key !in Run(ttlMs, ops[..|ops| - 1]).inflight))
  }

  lemma StepKeepsTracked<V>(s: State<V>, ttlMs: int, op: Op<V>, key: Key)
    requires Tracked(s, key) && Enabled(s, op) && (op.Clear? ==> key !in s.inflight)
    ensures Tracked(Step(s, ttlMs, op), key)
  {
    var s' := Step(s, ttlMs, op);
    forall p: nat ensures Unfinished(s', p, key) <==> key in s'.inflight && s'.inflight[key] == p {
      assert Unfinished(s, p, key) <==> key in s.inflight && s.inflight[key] == p;
      if op.LoadSucceeds? || op.LoadFails? || op.Settle? {
        assert Unfinished(s, op.promise, key) <==> op.key == key;
      }
    }
  }

  lemma {:induction false} RunIsTracked<V>(ttlMs: int, ops: seq<Op<V>>, key: Key)
    requires IsRun(ttlMs, ops) && ClearsWhenIdle(ttlMs, ops, key)
    ensures Tracked(Run(ttlMs, ops), key)
  {
    if ops != [] {
      RunIsTracked(ttlMs, ops[..|ops| - 1], key);
      StepKeepsTracked(Run(ttlMs, ops[..|ops| - 1]), ttlMs, ops[|ops| - 1], key);
    }
  }

  /** At most one loader of the key is ever unfinished. */
  lemma OneLoaderPerKey<V>(ttlMs: int, ops: seq<Op<V>>, key: Key, p: nat, q: nat)
    requires IsRun(ttlMs, ops) && ClearsWhenIdle(ttlMs, ops, key)
    requires Unfinished(Run(ttlMs, ops), p, key) && Unfinished(Run(ttlMs, ops), q, key)
    ensures p == q
  {
    RunIsTracked(ttlMs, ops, key);
  }

  /**
    Everyone who misses while a loader for the key is unfinished waits on that very loader; when
    none is, the miss starts a fresh one. So a failed load, once settled, leaves the key reloadable.
   */
  lemma MissersShareTheLoader<V>(ttlMs: int, ops: seq<Op<V>>, key: Key, now: int, p: nat)
    requires IsRun(ttlMs, ops) && ClearsWhenIdle(ttlMs, ops, key) && Monotone(ops) && By(ops, now)
    requires Live(ttlMs, ops, key, now).None?
    ensures var s := Run(ttlMs, ops);
            && (Unfinished(s, p, key) ==> LoadOrFetchResult(s, key, now) == Wait(p))
            && ((forall q: nat :: !Unfinished(s, q, key)) ==>
                  LoadOrFetchResult(s, key, now) == Wait(|s.loaders|)
                  && Unfinished(AfterLoadOrFetch(s, key, now), |s.loaders|, key))
  {
    GetAgreesWithHistory(ttlMs, ops, key, now);
    RunIsTracked(ttlMs, ops, key);
    var s := Run(ttlMs, ops);
    if key in s.inflight { assert Unfinished(s, s.inflight[key], key); }
  }

  /** Two loaders of one key are unfinished. */
  ghost predicate Duplicated<V>(s: State<V>, key: Key) {
    exists p: nat, q: nat :: p != q && Unfinished(s, p, key) && Unfinished(s, q, key)
  }

  /**
    The condition on `clear` is exact, key by key: after a run that kept it, a `clear` lets the next
    miss start a second unfinished loader of the key iff the key was loading.
   */
  lemma ClearDuplicatesIff<V>(ttlMs: int, ops: seq<Op<V>>, key: Key, now: int)
    requires IsRun(ttlMs, ops) && ClearsWhenIdle(ttlMs, ops, key)
    ensures var more := ops + [Clear] + [LoadOrFetch(key, now)];
            IsRun(ttlMs, more) && (Duplicated(Run(ttlMs, more), key) <==> key in Run(ttlMs, ops).inflight)
  {
    RunIsTracked(ttlMs, ops, key);
    var s := Run(ttlMs, ops);
    var cleared := ops + [Clear];
    var more := cleared + [LoadOrFetch(key, now)];
    assert cleared[..|cleared| - 1] == ops && more[..|more| - 1] == cleared;
    assert IsRun(ttlMs, cleared) && Run(ttlMs, cleared) == s.(store := map[], inflight := map[]);
    assert IsRun(ttlMs, more);
    var end := Run(ttlMs, more);
    assert end.loaders == s.loaders + [Loader(key, Running)];
    forall p: nat ensures Unfinished(end, p, key) <==> Unfinished(s, p, key) || p == |s.loaders| {}
    if key in s.inflight {
      assert Unfinished(s, s.inflight[key], key);
      assert Unfinished(end, s.inflight[key], key) && Unfinished(end, |s.loaders|, key);
    }
  }
}
