/** `TitleRedisManager`: the shared cache and the invalidation channel as
    seen by one server process.

    The Redis server is shared by all processes (`Server`: its key/value
    store and the log of messages published on channel "title:sync"); each
    process has its own `Client` (configuration, connection pool, handler
    list, subscription flag). When the server cannot be reached every Jedis
    call throws; the manager catches that, so a read yields null and a write
    changes nothing.
 */
module Redis {
  import opened Outcomes

  const KeyPrefix: string := "title:"
  const Channel: string := "title:sync"
  const DefaultCacheTtl: int := 600
  const ScanBatch: nat := 100

  datatype Pool = NoPool | Pool(closed: bool)

  /** Message handlers registered with `addHandler`. The plugin registers
      exactly one kind: `TitleManager`'s local-cache invalidation. */
  datatype Handler = TitleSync

  datatype Client = Client(
    enabled: bool,
    cacheTtl: int,
    pool: Pool,
    handlers: seq<Handler>,
    subscribeStarted: bool,
    subscribeAttempts: nat)

  /** A stored value with the expiry it was written with, in seconds. */
  datatype Entry = Entry(value: string, ttl: int)

  datatype Server = Server(reachable: bool, kv: map<string, Entry>, published: seq<string>)

  /** The constructor: "database.redis.enabled" defaults to true and
      "database.redis.cache.ttl" to 600; no pool yet, no handlers. */
  function FromConfig(enabled: Option<bool>, ttl: Option<int>): (c: Client)
    ensures c.enabled == enabled.GetOr(true)
    ensures ttl.None? ==> c.cacheTtl == DefaultCacheTtl
    ensures ttl.Some? ==> c.cacheTtl == ttl.value
    ensures c.pool == NoPool && c.handlers == [] && !c.subscribeStarted && c.subscribeAttempts == 0
  {
    Client(enabled.GetOr(true), ttl.GetOr(DefaultCacheTtl), NoPool, [], false, 0)
  }

  /** `isEnabled`: configured on, and a pool that is present and open. */
  predicate IsEnabled(c: Client) {
    c.enabled && c.pool.Pool? && !c.pool.closed
  }

  /** Enabled and the server answers: the only case in which a cache call
      has an effect. */
  predicate Live(c: Client, s: Server) {
    IsEnabled(c) && s.reachable
  }

  /** `connect`: does nothing when disabled or already connected; otherwise
      builds a pool and pings, and a failed ping leaves no pool. */
  function Connect(c: Client, serverUp: bool): (r: Client)
    ensures !c.enabled ==> r == c
    ensures IsEnabled(c) ==> r == c
    ensures IsEnabled(r) <==> c.enabled && (IsEnabled(c) || serverUp)
    ensures c.enabled && !IsEnabled(c) && !serverUp ==> r.pool == NoPool
    ensures r.handlers == c.handlers && r.enabled == c.enabled
  {
    if !c.enabled || IsEnabled(c) then c
    else if serverUp then c.(pool := Pool(false))
    else c.(pool := NoPool)
  }

  /** `disconnect`: closes an open pool. */
  function Disconnect(c: Client): (r: Client)
    ensures !IsEnabled(r)
    ensures r.handlers == c.handlers
  {
    if c.pool.Pool? && !c.pool.closed then c.(pool := Pool(true)) else c
  }

  /** `getCacheKey`. */
  function CacheKey(key: string): string {
    KeyPrefix + key
  }

  /** `getCache`: null when disabled or when the call throws. */
  function GetCache(c: Client, s: Server, key: string): (r: Option<string>)
    ensures !Live(c, s) ==> r == None
    ensures r.Some? <==> Live(c, s) && CacheKey(key) in s.kv
    ensures r.Some? ==> r.value == s.kv[CacheKey(key)].value
  {
    if !IsEnabled(c) then None
    else if !s.reachable then None
    else if CacheKey(key) in s.kv then Some(s.kv[CacheKey(key)].value)
    else None
  }

  /** `setCache(key, value, ttlSeconds)`: SETEX under the prefixed key. The
      server refuses SETEX with a TTL that is not positive; the client
      throws, the failure is logged and nothing is stored. */
  function SetCacheTtl(c: Client, s: Server, key: string, value: string, ttl: int): (r: Server)
    ensures !Live(c, s) || ttl <= 0 ==> r == s
    ensures Live(c, s) && ttl > 0 ==> CacheKey(key) in r.kv && r.kv[CacheKey(key)] == Entry(value, ttl)
    ensures r.reachable == s.reachable && r.published == s.published
    ensures forall k :: k != CacheKey(key) && k in s.kv ==> k in r.kv && r.kv[k] == s.kv[k]
    ensures forall k :: k in r.kv && k != CacheKey(key) ==> k in s.kv
  {
    if !Live(c, s) || ttl <= 0 then s
    else s.(kv := s.kv[CacheKey(key) := Entry(value, ttl)])
  }

  /** `setCache(key, value)`: the configured TTL. */
  function SetCache(c: Client, s: Server, key: string, value: string): (r: Server)
    ensures Live(c, s) && c.cacheTtl > 0 ==> CacheKey(key) in r.kv && r.kv[CacheKey(key)].ttl == c.cacheTtl
    ensures !Live(c, s) || c.cacheTtl <= 0 ==> r == s
  {
    SetCacheTtl(c, s, key, value, c.cacheTtl)
  }

  /** `deleteCache`. */
  function DeleteCache(c: Client, s: Server, key: string): (r: Server)
    ensures !Live(c, s) ==> r == s
    ensures Live(c, s) ==> CacheKey(key) !in r.kv
    ensures r.reachable == s.reachable && r.published == s.published
    ensures forall k :: k != CacheKey(key) && k in s.kv ==> k in r.kv && r.kv[k] == s.kv[k]
    ensures forall k :: k in r.kv ==> k in s.kv
  {
    if !Live(c, s) then s else s.(kv := s.kv - {CacheKey(key)})
  }

  /** `publish` on channel "title:sync". */
  function Publish(c: Client, s: Server, message: string): (r: Server)
    ensures !Live(c, s) ==> r == s
    ensures Live(c, s) ==> r.published == s.published + [message]
    ensures r.kv == s.kv && r.reachable == s.reachable
  {
    if !Live(c, s) then s else s.(published := s.published + [message])
  }

  /** Reading a key right after writing it returns the written value when
      the configured TTL is positive, and what was there before otherwise. */
  lemma GetAfterSet(c: Client, s: Server, key: string, value: string)
    requires Live(c, s)
    ensures GetCache(c, SetCache(c, s, key, value), key) ==
      (if c.cacheTtl > 0 then Some(value) else GetCache(c, s, key))
  {
  }

  /** Writing one key leaves every other key's reading unchanged. */
  lemma GetAfterSetOther(c: Client, s: Server, key: string, other: string, value: string)
    requires key != other
    ensures GetCache(c, SetCache(c, s, key, value), other) == GetCache(c, s, other)
  {
    assert CacheKey(key)[|KeyPrefix|..] == key;
    assert CacheKey(other)[|KeyPrefix|..] == other;
  }

  /** A fresh client whose configuration leaves the TTL out writes entries
      that expire after 600 seconds. */
  lemma DefaultTtlOnWrite(enabled: Option<bool>, s: Server, key: string, value: string)
    requires s.reachable && enabled.GetOr(true)
    ensures SetCache(Connect(FromConfig(enabled, None), true), s, key, value).kv[CacheKey(key)] ==
      Entry(value, 600)
  {
  }

  // ---------------------------------------------------------------------
  // deleteCachePattern: SCAN with MATCH and COUNT 100 until the cursor is 0
  // ---------------------------------------------------------------------

  /** Redis glob matching, restricted to '*' (any run), '?' (any one
      character) and literal characters. */
  predicate GlobMatch(p: string, s: string)
    decreases |p| + |s|
  {
    if |p| == 0 then |s| == 0
    else if p[0] == '*' then GlobMatch(p[1..], s) || (|s| > 0 && GlobMatch(p, s[1..]))
    else |s| > 0 && (p[0] == '?' || p[0] == s[0]) && GlobMatch(p[1..], s[1..])
  }

  lemma {:induction false} StarMatchesAll(s: string)
    ensures GlobMatch("*", s)
    decreases |s|
  {
    if |s| > 0 {
      StarMatchesAll(s[1..]);
    }
  }

  /** A literal pattern followed by '*' matches exactly the keys that start
      with the literal. */
  lemma {:induction false} PrefixPatternMatches(p: string, s: string)
    requires '*' !in p && '?' !in p
    ensures GlobMatch(p + "*", s) <==> |p| <= |s| && s[..|p|] == p
    decreases |p|
  {
    if |p| == 0 {
      StarMatchesAll(s);
      assert p + "*" == "*";
    } else {
      assert (p + "*")[1..] == p[1..] + "*";
      PrefixPatternMatches(p[1..], if |s| > 0 then s[1..] else s);
      if |s| > 0 && |p| <= |s| {
        assert s[..|p|] == [s[0]] + s[1..][..|p| - 1];
      }
    }
  }

  /** The keys of `ks` that match `full`, in order. */
  function Matching(ks: seq<string>, full: string): (r: seq<string>)
    ensures forall k :: k in r <==> k in ks && GlobMatch(full, k)
    decreases |ks|
  {
    if |ks| == 0 then []
    else (if GlobMatch(full, ks[0]) then [ks[0]] else []) + Matching(ks[1..], full)
  }

  /** One SCAN call over the server's key enumeration `order`: up to
      `ScanBatch` positions from `cursor`, filtered by the pattern; the next
      cursor is 0 once the enumeration is exhausted. */
  function Scan(order: seq<string>, cursor: nat, full: string): (r: (nat, seq<string>))
    requires cursor <= |order|
    ensures r.0 == 0 || (cursor < r.0 < |order|)
  {
    var end := if cursor + ScanBatch < |order| then cursor + ScanBatch else |order|;
    (if end == |order| then 0 else end, Matching(order[cursor..end], full))
  }

  /** `kv` without the keys that occur in `ks` and match `full`. */
  function Purge(kv: map<string, Entry>, full: string, ks: seq<string>): map<string, Entry> {
    map k | k in kv && !(k in ks && GlobMatch(full, k)) :: kv[k]
  }

  /** Scanning positions `done` to `end` further removes exactly the keys
      of that batch. */
  lemma PurgeExtend(kv: map<string, Entry>, full: string, order: seq<string>, done: nat, end: nat)
    requires done <= end <= |order|
    ensures var before := Purge(kv, full, order[..done]);
      var batch := Matching(order[done..end], full);
      Purge(kv, full, order[..end]) == map k | k in before && k !in batch :: before[k]
  {
    assert order[..end] == order[..done] + order[done..end];
  }

  /** `kv` without the keys that match `full`. */
  function Unmatched(kv: map<string, Entry>, full: string): map<string, Entry> {
    map k | k in kv && !GlobMatch(full, k) :: kv[k]
  }

  /** How many positions of the enumeration have been scanned. */
  function Scanned(first: bool, cursor: nat, n: nat): nat {
    if !first && cursor == 0 then n else cursor
  }

  /** `deleteCachePattern`: deletes exactly the keys that match
      "title:" + pattern, batch by batch, when the cache is live. `order`
      is the server's enumeration of its keys; SCAN returns every key that
      is present for the whole iteration. */
  method DeleteCachePattern(c: Client, s: Server, pattern: string, order: seq<string>)
    returns (r: Server)
    requires forall k :: k in s.kv ==> k in order
    ensures !Live(c, s) ==> r == s
    ensures Live(c, s) ==> r == s.(kv := Unmatched(s.kv, CacheKey(pattern)))
  {
    if !Live(c, s) {
      return s;
    }
    var full := CacheKey(pattern);
    var kv := s.kv;
    var cursor: nat := 0;
    var first := true;
    while first || cursor != 0
      invariant cursor <= |order|
      invariant cursor != 0 ==> cursor < |order|
      invariant first ==> cursor == 0
      invariant kv == Purge(s.kv, full, order[..Scanned(first, cursor, |order|)])
      decreases |order| - Scanned(first, cursor, |order|) + (if first then 1 else 0)
    {
      var next, batch := Scan(order, cursor, full).0, Scan(order, cursor, full).1;
      var end := if next == 0 then |order| else next;
      PurgeExtend(s.kv, full, order, cursor, end);
      if |batch| > 0 {
        kv := map k | k in kv && k !in batch :: kv[k];
      }
      assert kv == Purge(s.kv, full, order[..end]);
      assert Scanned(false, next, |order|) == end;
      cursor := next;
      first := false;
    }
    assert order[..|order|] == order;
    assert kv == Unmatched(s.kv, full);
    return s.(kv := kv);
  }

  // ---------------------------------------------------------------------
  // Handlers and the subscription
  // ---------------------------------------------------------------------

  /** `addHandler`: refused when disabled; otherwise appends the handler and
      starts the subscription unless one has already been started. */
  function AddHandler(c: Client, h: Handler): (r: Client)
    ensures !IsEnabled(c) ==> r == c
    ensures IsEnabled(c) ==> r.handlers == c.handlers + [h] && r.subscribeStarted
    ensures IsEnabled(c) && c.subscribeStarted ==> r.subscribeAttempts == c.subscribeAttempts
    ensures IsEnabled(c) && !c.subscribeStarted ==> r.subscribeAttempts == c.subscribeAttempts + 1
    ensures IsEnabled(r) == IsEnabled(c)
  {
    if !IsEnabled(c) then c
    else if c.subscribeStarted then c.(handlers := c.handlers + [h])
    else c.(handlers := c.handlers + [h], subscribeStarted := true,
            subscribeAttempts := c.subscribeAttempts + 1)
  }

  /** The subscribing task failed: the flag is reset so a later
      `addHandler` tries again. */
  function SubscribeFailed(c: Client): (r: Client)
    ensures !r.subscribeStarted
    ensures r.handlers == c.handlers && IsEnabled(r) == IsEnabled(c)
  {
    c.(subscribeStarted := false)
  }

  function AddHandlers(c: Client, hs: seq<Handler>): Client
    decreases |hs|
  {
    if |hs| == 0 then c else AddHandlers(AddHandler(c, hs[0]), hs[1..])
  }

  /** However many handlers are added, the subscription is started once. */
  lemma {:induction false} SubscribeOnce(c: Client, hs: seq<Handler>)
    requires IsEnabled(c) && |hs| > 0
    ensures AddHandlers(c, hs).handlers == c.handlers + hs
    ensures AddHandlers(c, hs).subscribeStarted
    ensures AddHandlers(c, hs).subscribeAttempts ==
      c.subscribeAttempts + (if c.subscribeStarted then 0 else 1)
    decreases |hs|
  {
    var c1 := AddHandler(c, hs[0]);
    if |hs| > 1 {
      SubscribeOnce(c1, hs[1..]);
      assert c.handlers + [hs[0]] + hs[1..] == c.handlers + hs;
    }
  }

  /** A disabled client accepts no handlers. */
  lemma {:induction false} DisabledAddsNothing(c: Client, hs: seq<Handler>)
    requires !IsEnabled(c)
    ensures AddHandlers(c, hs) == c
    decreases |hs|
  {
    if |hs| > 0 {
      DisabledAddsNothing(c, hs[1..]);
    }
  }

  /** After a failed subscription the next handler starts a new attempt. */
  lemma RetryAfterFailure(c: Client, h: Handler)
    requires IsEnabled(c)
    ensures AddHandler(SubscribeFailed(c), h).subscribeAttempts == c.subscribeAttempts + 1
    ensures AddHandler(SubscribeFailed(c), h).subscribeStarted
  {
  }

  // ---------------------------------------------------------------------
  // Delivery of one received message to the handler list
  // ---------------------------------------------------------------------

  /** The `onMessage` loop: every handler, in registration order, receives
      the message; `apply` gives the handler's effect, or None when it
      throws, in which case the exception is logged and the loop goes on. */
  function FanOut<H, S>(apply: (H, string, S) -> Option<S>, hs: seq<H>, message: string, s: S): S
    decreases |hs|
  {
    if |hs| == 0 then s
    else
      var next := match apply(hs[0], message, s) case Some(s1) => s1 case None => s;
      FanOut(apply, hs[1..], message, next)
  }

  /** Registration order is delivery order. */
  lemma {:induction false} FanOutAppend<H, S>(apply: (H, string, S) -> Option<S>, hs: seq<H>, gs: seq<H>,
                                             message: string, s: S)
    ensures FanOut(apply, hs + gs, message, s) == FanOut(apply, gs, message, FanOut(apply, hs, message, s))
    decreases |hs|
  {
    if |hs| > 0 {
      assert (hs + gs)[0] == hs[0];
      assert (hs + gs)[1..] == hs[1..] + gs;
      var next := match apply(hs[0], message, s) case Some(s1) => s1 case None => s;
      FanOutAppend(apply, hs[1..], gs, message, next);
    } else {
      assert hs + gs == gs;
    }
  }

  /** A handler that throws does not keep the later handlers from running. */
  lemma FanOutSkipsThrowing<H, S>(apply: (H, string, S) -> Option<S>, h: H, gs: seq<H>,
                                  message: string, s: S)
    requires apply(h, message, s).None?
    ensures FanOut(apply, [h] + gs, message, s) == FanOut(apply, gs, message, s)
  {
    assert ([h] + gs)[1..] == gs;
  }
}
