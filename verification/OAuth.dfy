/**
  The Google access-token provider of app/services/google/oauth.ts, on top of the TTL cache.

  Up to its one `await`, getAccessToken runs without interruption; it reads the clock at most three
  times on the way.
 */
module OAuth {
  import opened Wrappers
  import opened TtlCache

  const REFRESH_SKEW_SECONDS: int := 60
  const TOKEN_TTL_MS: int := 2 * 60 * 60 * 1000

  const ANDROIDPUBLISHER_SCOPE: string := "https://www.googleapis.com/auth/androidpublisher"

  datatype TokenEntry = TokenEntry(token: string, expiresAt: int)

  /** A well-formed answer of the token endpoint: access_token is a non-empty string, expires_in a number. */
  datatype Grant = Grant(accessToken: string, expiresIn: int)

  /** The token endpoint's reply: an HTTP status, and the two fields if present. */
  datatype Response = Response(status: int, accessToken: Option<string>, expiresIn: Option<int>)

  /** A successful exchange: for whom, the grant, and the clock reading when the entry was built. */
  datatype Exchange = Exchange(cacheKey: string, scope: string, grant: Grant, loadTime: int)

  /** The cached entry of an exchange. */
  function EntryOf(x: Exchange): TokenEntry {
    TokenEntry(x.grant.accessToken, x.loadTime + (x.grant.expiresIn - 60) * 1000)
  }

  /** `fetchFresh` from the reply on; the error is the status the source's exception carries. */
  function FetchFresh(r: Response, now: int): (result: Result<TokenEntry, int>)
    ensures result.Ok? <==> 200 <= r.status < 300 && r.accessToken.Some? && r.accessToken.value != "" && r.expiresIn.Some?
    ensures result.Ok? ==> result.value == TokenEntry(r.accessToken.value, now + (r.expiresIn.value - 60) * 1000)
    ensures result.Err? ==> result.error == r.status
  {
    if !(200 <= r.status < 300) then Err(r.status)
    else if r.accessToken.None? || r.accessToken.value == "" || r.expiresIn.None? then Err(r.status)
    else Ok(TokenEntry(r.accessToken.value, now + (r.expiresIn.value - REFRESH_SKEW_SECONDS) * 1000))
  }

  function NamespacedKey(cacheKey: string, scope: Option<string>): Key {
    cacheKey + "::" + (match scope case Some(s) => s case None => ANDROIDPUBLISHER_SCOPE)
  }

  /** The token served at once from the cache, if there is one. */
  function Served(s: State<TokenEntry>, key: Key, t1: int, t2: int): Option<string> {
    match GetResult(s, key, t1)
    case Some(e) => if e.expiresAt > t2 then Some(e.token) else None
    case None => None
  }

  datatype Access = Token(token: string) | Await(promise: nat)

  class AccessTokenProvider {
    const cache: Cache<TokenEntry>

    constructor ()
      ensures fresh(cache) && cache.ttlMs == TOKEN_TTL_MS && cache.Abs() == Init()
    {
      cache := new Cache(TOKEN_TTL_MS);
    }

    /** A token from the cache, or the promise whose entry's token the caller will be given. */
    method GetAccessToken(cacheKey: string, scope: Option<string>, t1: int, t2: int, t3: int) returns (r: Access)
      requires t1 <= t2 <= t3
      modifies cache
      ensures var s := old(cache.Abs());
              var key := cacheKey + "::" + scope.GetOr("https://www.googleapis.com/auth/androidpublisher");
              if key in s.store && s.store[key].expiresAt > t1 && s.store[key].value.expiresAt > t2 then
                r == Token(s.store[key].value.token) && cache.Abs() == s
              else
                && cache.store == s.store - {key}
                && if key in s.inflight then
                     r == Await(s.inflight[key]) && cache.inflight == s.inflight && cache.loaders == s.loaders
                   else
                     && r == Await(|s.loaders|) && cache.inflight == s.inflight[key := |s.loaders|]
                     && cache.loaders == s.loaders + [Loader(key, Running)]
    {
      var effectiveScope := if scope.Some? then scope.value else ANDROIDPUBLISHER_SCOPE;
      var namespacedKey := cacheKey + "::" + effectiveScope;
      var cached := cache.GetAt(namespacedKey, t1);
      if cached.Some? && cached.value.expiresAt > t2 { return Token(cached.value.token); }
      if cached.Some? { cache.DeleteKey(namespacedKey); }
      assert cache.store == old(cache.store) - {namespacedKey};
      var entry := cache.LoadOrFetchAt(namespacedKey, t3);
      match entry
      case Wait(promise) => r := Await(promise);
      case Hit(value) => r := Token(value.token);
    }
  }

  /**
    Everything the run stored is the entry of the exchange its loader performed, for the cache key and
    scope its namespaced key was made of, built no later than it was stored.
   */
  ghost predicate StoresExchanges(ops: seq<Op<TokenEntry>>, exchanges: map<nat, Exchange>) {
    forall op <- ops ::
      && !op.Set?
      && (op.LoadSucceeds? ==>
            && op.promise in exchanges
            && var x := exchanges[op.promise];
               && op.key == x.cacheKey + "::" + x.scope && PlainScope(x.scope)
               && op.value == EntryOf(x)
               && x.loadTime <= op.at)
  }

  lemma {:induction false} LastStoredIsALoad(ops: seq<Op<TokenEntry>>, key: Key)
    requires LastStored(ops, key).Some? && forall op <- ops :: !op.Set?
    ensures exists op :: op in ops && op.LoadSucceeds? && op.key == key && LastStored(ops, key) == Some((op.value, op.at))
  {
    var n := |ops| - 1;
    var last := ops[n];
    if !(last.LoadSucceeds? && last.key == key) {
      LastStoredIsALoad(ops[..n], key);
      var op :| op in ops[..n] && op.LoadSucceeds? && op.key == key && LastStored(ops[..n], key) == Some((op.value, op.at));
      assert op in ops;
    }
  }

  /**
    Freshness: a token served from the cache was granted for the very cache key and scope it is asked
    for, androidpublisher where no scope is given, and is served strictly before `expires_in - 60`
    seconds have passed since that exchange.
   */
  lemma {:induction false} ServedTokensAreFresh(ops: seq<Op<TokenEntry>>, exchanges: map<nat, Exchange>,
                                                cacheKey: string, scope: Option<string>, t1: int, t2: int)
    requires IsRun(TOKEN_TTL_MS, ops) && Monotone(ops) && By(ops, t1) && t1 <= t2
    requires StoresExchanges(ops, exchanges) && (scope.Some? ==> PlainScope(scope.value))
    requires Served(Run(TOKEN_TTL_MS, ops), NamespacedKey(cacheKey, scope), t1, t2).Some?
    ensures exists op :: && op in ops && op.LoadSucceeds? && op.promise in exchanges
                         && var x := exchanges[op.promise];
                            && x.cacheKey == cacheKey
                            && x.scope == scope.GetOr("https://www.googleapis.com/auth/androidpublisher")
                            && (scope.None? ==> x.scope != "https://www.googleapis.com/auth/pubsub")
                            && Served(Run(TOKEN_TTL_MS, ops), NamespacedKey(cacheKey, scope), t1, t2)
                               == Some(x.grant.accessToken)
                            && t2 < x.loadTime + (x.grant.expiresIn - 60) * 1000
                            && t1 < op.at + 7_200_000
  {
    var key := NamespacedKey(cacheKey, scope);
    GetAgreesWithHistory(TOKEN_TTL_MS, ops, key, t1);
    LastStoredIsALoad(ops, key);
    var op :| op in ops && op.LoadSucceeds? && op.key == key && LastStored(ops, key) == Some((op.value, op.at));
    var x := exchanges[op.promise];
    ProgramScopesArePlain();
    NamespacesDoNotCollide(x.cacheKey, x.scope, cacheKey, scope.GetOr(ANDROIDPUBLISHER_SCOPE));
    ScopesDiffer();
  }

  lemma ScopesDiffer()
    ensures ANDROIDPUBLISHER_SCOPE != "https://www.googleapis.com/auth/pubsub"
  {
    assert |ANDROIDPUBLISHER_SCOPE| != |"https://www.googleapis.com/auth/pubsub"|;
  }

  /** Conversely an entry stored under the key and not deleted since is served while it and its token last. */
  lemma {:induction false} FreshTokensAreServed(ops: seq<Op<TokenEntry>>, cacheKey: string, scope: Option<string>,
                                                entry: TokenEntry, at: int, t1: int, t2: int)
    requires IsRun(TOKEN_TTL_MS, ops) && Monotone(ops) && By(ops, t1) && t1 <= t2
    requires LastStored(ops, cacheKey + "::" + scope.GetOr("https://www.googleapis.com/auth/androidpublisher")) == Some((entry, at))
    ensures Served(Run(TOKEN_TTL_MS, ops), NamespacedKey(cacheKey, scope), t1, t2)
         == if t1 < at + 7_200_000 && t2 < entry.expiresAt then Some(entry.token) else None
  {
    GetAgreesWithHistory(TOKEN_TTL_MS, ops, NamespacedKey(cacheKey, scope), t1);
  }

  /**
    Concurrent refreshes perform one exchange: a call that is not served at once waits on the
    unfinished loader of its key if there is one, and starts one only if there is none. The
    provider never clears the cache, so no run of it needs a further condition.
   */
  lemma RefreshesShareOneExchange(ops: seq<Op<TokenEntry>>, key: Key, t1: int, t2: int, t3: int)
    requires IsRun(TOKEN_TTL_MS, ops) && Monotone(ops) && By(ops, t1) && t1 <= t2 <= t3
    requires forall op <- ops :: !op.Clear?
    requires Served(Run(TOKEN_TTL_MS, ops), key, t1, t2).None?
    ensures var s := Run(TOKEN_TTL_MS, ops);
            var after := AfterLoadOrFetch(s.(store := s.store - {key}), key, t3);
            var promise := if key in s.inflight then s.inflight[key] else |s.loaders|;
            && Unfinished(after, promise, key)
            && (forall q: nat :: Unfinished(after, q, key) ==> q == promise)
            && |after.loaders| == |s.loaders| + if exists q: nat :: Unfinished(s, q, key) then 0 else 1
  {
    NeverCleared(ops, key);
    RunIsTracked(TOKEN_TTL_MS, ops, key);
    var s := Run(TOKEN_TTL_MS, ops);
    if key in s.inflight { assert Unfinished(s, s.inflight[key], key); }
    var evicted := s.(store := s.store - {key});
    assert Tracked(evicted, key) by {
      forall p: nat ensures Unfinished(evicted, p, key) <==> key in s.inflight && s.inflight[key] == p {
        assert Unfinished(s, p, key) <==> key in s.inflight && s.inflight[key] == p;
      }
    }
    StepKeepsTracked(evicted, TOKEN_TTL_MS, LoadOrFetch(key, t3), key);
  }

  lemma {:induction false} NeverCleared(ops: seq<Op<TokenEntry>>, key: Key)
    requires IsRun(TOKEN_TTL_MS, ops) && forall op <- ops :: !op.Clear?
    ensures ClearsWhenIdle(TOKEN_TTL_MS, ops, key)
  {
    if ops != [] { NeverCleared(ops[..|ops| - 1], key); }
  }

  // ---------------------------------------------------------------------------------------------
  // The namespacing of keys.
  // ---------------------------------------------------------------------------------------------

  predicate ColonsAt(s: string, i: nat) { i + 1 < |s| && s[i] == ':' && s[i + 1] == ':' }

  /** Neither starts with a colon nor has two in a row. */
  ghost predicate PlainScope(scope: string) {
    (scope != "" ==> scope[0] != ':') && forall i: nat :: !ColonsAt(scope, i)
  }

  /** The scopes that the program uses are plain. */
  lemma ProgramScopesArePlain()
    ensures PlainScope("https://www.googleapis.com/auth/androidpublisher")
    ensures PlainScope("https://www.googleapis.com/auth/pubsub")
  {
    AndroidpublisherIsPlain();
    PubsubIsPlain();
  }

  lemma AndroidpublisherIsPlain()
    ensures PlainScope("https://www.googleapis.com/auth/androidpublisher")
  {
    AndroidpublisherSplit();
    AndroidpublisherHasNoMore();
    OneColonIsPlain("https", "//www.googleapis.com/auth/androidpublisher");
  }

  lemma AndroidpublisherSplit()
    ensures "https" + ":" + "//www.googleapis.com/auth/androidpublisher" == "https://www.googleapis.com/auth/androidpublisher"
  {
  }

  lemma AndroidpublisherHasNoMore()
    ensures ':' !in "//www.googleapis.com/auth/androidpublisher"
  {
  }

  lemma PubsubIsPlain()
    ensures PlainScope("https://www.googleapis.com/auth/pubsub")
  {
    PubsubSplit();
    PubsubHasNoMore();
    OneColonIsPlain("https", "//www.googleapis.com/auth/pubsub");
  }

  lemma PubsubSplit()
    ensures "https" + ":" + "//www.googleapis.com/auth/pubsub" == "https://www.googleapis.com/auth/pubsub"
  {
  }

  lemma PubsubHasNoMore()
    ensures ':' !in "//www.googleapis.com/auth/pubsub"
  {
  }

  lemma OneColonIsPlain(a: string, b: string)
    requires a != "" && ':' !in a && ':' !in b
    ensures PlainScope(a + ":" + b)
  {
    var s := a + ":" + b;
    forall i: nat ensures !ColonsAt(s, i) {
      if i + 1 < |s| && s[i] == ':' { assert i == |a| && s[i + 1] == b[0]; }
    }
  }

  /** No two pairs share a key if their scopes are plain, colons in cache keys or not, or if their cache keys hold no colon. */
  lemma NamespacesDoNotCollide(k1: string, s1: string, k2: string, s2: string)
    requires (PlainScope(s1) && PlainScope(s2)) || (':' !in k1 && ':' !in k2)
    requires k1 + "::" + s1 == k2 + "::" + s2
    ensures k1 == k2 && s1 == s2
  {
    if |k1| == |k2| {
      SameLengthSameKey(k1, s1, k2, s2);
    } else if |k1| < |k2| {
      LongerKeyNeedsColons(k1, s1, k2, s2);
    } else {
      LongerKeyNeedsColons(k2, s2, k1, s1);
    }
  }

  lemma SameLengthSameKey(k1: string, s1: string, k2: string, s2: string)
    requires |k1| == |k2| && k1 + "::" + s1 == k2 + "::" + s2
    ensures k1 == k2 && s1 == s2
  {
    var a := k1 + "::" + s1;
    assert a[..|k1|] == k1 && a[..|k2|] == k2 && a[|k1| + 2..] == s1 && a[|k2| + 2..] == s2;
  }

  lemma LongerKeyNeedsColons(k1: string, s1: string, k2: string, s2: string)
    requires |k1| < |k2| && k1 + "::" + s1 == k2 + "::" + s2
    ensures !PlainScope(s1) && ':' in k2
  {
    var a := k1 + "::" + s1;
    assert k2[|k1|] == a[|k1|] == ':';
    var n := |k2| - |k1|;
    assert a[|k2|] == ':' && a[|k2| + 1] == ':';
    if n == 1 {
      assert s1[0] == a[|k1| + 2];
    } else {
      assert s1[n - 2] == a[|k2|] && s1[n - 1] == a[|k2| + 1];
      assert ColonsAt(s1, n - 2);
    }
  }

  /** The condition is exact: some longer cache key shares a pair's key iff the pair's scope is not plain. */
  lemma AliasedIff(k1: string, s1: string)
    ensures (exists k2, s2 :: Aliases(k1, s1, k2, s2)) <==> !PlainScope(s1)
  {
    if k2, s2 :| Aliases(k1, s1, k2, s2) {
      LongerKeyNeedsColons(k1, s1, k2, s2);
    }
    if !PlainScope(s1) {
      var k2, s2 := AliasOf(k1, s1);
    }
  }

  /** A pair with a longer cache key and the same namespaced key. */
  predicate Aliases(k1: string, s1: string, k2: string, s2: string) {
    |k1| < |k2| && k1 + "::" + s1 == k2 + "::" + s2
  }

  lemma AliasOf(k1: string, s1: string) returns (k2: string, s2: string)
    requires !PlainScope(s1)
    ensures Aliases(k1, s1, k2, s2)
  {
    if s1 != "" && s1[0] == ':' {
      k2, s2 := k1 + ":", s1[1..];
      AliasedByColon(k1, s2);
      assert s1 == ":" + s2;
    } else {
      var i: nat :| ColonsAt(s1, i);
      k2, s2 := k1 + "::" + s1[..i], s1[i + 2..];
      AliasedByColons(k1, s1[..i], s2);
      assert s1 == s1[..i] + "::" + s2;
    }
  }

  lemma AliasedByColon(k: string, rest: string)
    ensures |k| < |k + ":"| && NamespacedKey(k, Some(":" + rest)) == NamespacedKey(k + ":", Some(rest))
  {
  }

  lemma AliasedByColons(k: string, a: string, b: string)
    ensures |k| < |k + "::" + a| && NamespacedKey(k, Some(a + "::" + b)) == NamespacedKey(k + "::" + a, Some(b))
  {
  }
}
