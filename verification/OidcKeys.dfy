/** The provider's signing keys as the API remembers them (apps/cloud-api/src/oidc.rs:152-158, 291-325). */
module OidcKeys {
  import opened Text

  datatype Jwk = Jwk(kid: string, key: seq<bv8>)

  /** Milliseconds: how long a key set is fresh, and how long after a refresh an unknown key id may cause another. */
  datatype Config = Config(cacheTtl: int, keyRefreshMin: int)

  datatype Cache = Cache(keys: Option<(seq<Jwk>, int)>, lastRefresh: int)

  const EMPTY := Cache(None, 0)

  /** A request to the provider: it failed, or brought the set the provider served at `servedAt`; `storedAt` and
      `refreshedAt` are the two clock readings taken once it is back. */
  datatype Reply = Unavailable | Served(keys: seq<Jwk>, servedAt: int, storedAt: int, refreshedAt: int)

  /** One lookup: the clock when it looks at the cache, the reply to a stale cache, the clock when it considers a
      second look at the provider, and the reply to that. The cache stays locked throughout. */
  datatype Lookup = Lookup(kid: string, now: int, first: Reply, later: int, second: Reply)

  datatype Result = Key(jwk: Jwk) | KeyUnknown | ProviderUnavailable

  function Find(keys: seq<Jwk>, kid: string): (r: Option<Jwk>)
    ensures r.Some? ==> r.value in keys && r.value.kid == kid
    ensures r.None? ==> forall k | k in keys :: k.kid != kid
  {
    if keys == [] then None
    else if keys[0].kid == kid then Some(keys[0])
    else Find(keys[1..], kid)
  }

  /** Position `i` holds the first key of the id. */
  predicate FirstAt(keys: seq<Jwk>, kid: string, i: int)
  {
    0 <= i < |keys| && keys[i].kid == kid && forall j | 0 <= j < i :: keys[j].kid != kid
  }

  /** `jwk` is the first key of its id in the set. */
  ghost predicate FirstOf(keys: seq<Jwk>, kid: string, jwk: Jwk)
  {
    exists i :: FirstAt(keys, kid, i) && keys[i] == jwk
  }

  lemma {:induction false} FindAt(keys: seq<Jwk>, kid: string, i: nat)
    requires FirstAt(keys, kid, i)
    ensures Find(keys, kid) == Some(keys[i])
  {
    if i > 0 {
      assert keys[0].kid != kid;
      FindAt(keys[1..], kid, i - 1);
    }
  }

  lemma {:induction false} FoundAt(keys: seq<Jwk>, kid: string) returns (i: nat)
    requires Find(keys, kid).Some?
    ensures FirstAt(keys, kid, i) && keys[i] == Find(keys, kid).value
  {
    i := 0;
    if keys[0].kid != kid {
      i := FoundAt(keys[1..], kid);
      i := i + 1;
    }
  }

  lemma FindIs(keys: seq<Jwk>, kid: string, jwk: Jwk)
    ensures Find(keys, kid) == Some(jwk) <==> FirstOf(keys, kid, jwk)
  {
    if Find(keys, kid).Some? { var i := FoundAt(keys, kid); }
    if i :| FirstAt(keys, kid, i) && keys[i] == jwk { FindAt(keys, kid, i); }
  }

  predicate Fresh(cfg: Config, c: Cache, now: int)
  {
    c.keys.Some? && now - c.keys.value.1 < cfg.cacheTtl
  }

  function Stored(r: Reply): Cache
    requires r.Served?
  {
    Cache(Some((r.keys, r.storedAt)), r.refreshedAt)
  }

  function FindIn(c: Cache, kid: string): Option<Jwk>
  {
    if c.keys.Some? then Find(c.keys.value.0, kid) else None
  }

  // ---- one lookup --------------------------------------------------------------------------------

  /** The cache once it is fresh; None when the provider could not be reached. */
  function Refreshed(cfg: Config, c: Cache, q: Lookup): Option<Cache>
  {
    if Fresh(cfg, c, q.now) then Some(c)
    else if q.first.Unavailable? then None
    else Some(Stored(q.first))
  }

  /** The fresh cache does not know the key and the throttle allows another look. */
  predicate LooksAgain(cfg: Config, c: Cache, q: Lookup)
  {
    FindIn(c, q.kid).None? && q.later - c.lastRefresh > cfg.keyRefreshMin
  }

  function Answer(c: Cache, kid: string): Result
  {
    if FindIn(c, kid).Some? then Key(FindIn(c, kid).value) else KeyUnknown
  }

  function KeyFor(cfg: Config, c: Cache, q: Lookup): (Result, Cache)
  {
    var usable := Refreshed(cfg, c, q);
    if usable.None? then (ProviderUnavailable, c)
    else if !LooksAgain(cfg, usable.value, q) then (Answer(usable.value, q.kid), usable.value)
    else if q.second.Unavailable? then (ProviderUnavailable, usable.value)
    else (Answer(Stored(q.second), q.kid), Stored(q.second))
  }

  /** The successful fetches the lookup makes, in order. */
  function Fetches(cfg: Config, c: Cache, q: Lookup): seq<Reply>
  {
    var usable := Refreshed(cfg, c, q);
    var one := if !Fresh(cfg, c, q.now) && q.first.Served? then [q.first] else [];
    var two := if usable.Some? && LooksAgain(cfg, usable.value, q) && q.second.Served? then [q.second] else [];
    one + two
  }

  /** The lookup sends a request to the provider. */
  predicate Asks(cfg: Config, c: Cache, q: Lookup)
  {
    var usable := Refreshed(cfg, c, q);
    !Fresh(cfg, c, q.now) || (usable.Some? && LooksAgain(cfg, usable.value, q))
  }

  // ---- the cache as it runs ---------------------------------------------------------------------------

  class KeyCache {
    const cfg: Config
    var cache: Cache

    constructor (cfg: Config)
      ensures this.cfg == cfg && cache == EMPTY
    {
      this.cfg := cfg;
      cache := EMPTY;
    }

    method LookUp(q: Lookup) returns (result: Result)
      modifies this
      ensures (result, cache) == KeyFor(cfg, old(cache), q)
    {
      var usable := cache.keys.Some? && q.now - cache.keys.value.1 < cfg.cacheTtl;
      if !usable {
        if q.first.Unavailable? { return ProviderUnavailable; }
        cache := cache.(keys := Some((q.first.keys, q.first.storedAt)));
        cache := cache.(lastRefresh := q.first.refreshedAt);
      }
      var found := FindIn(cache, q.kid);
      if found.Some? { return Key(found.value); }
      if q.later - cache.lastRefresh > cfg.keyRefreshMin {
        if q.second.Unavailable? { return ProviderUnavailable; }
        cache := cache.(keys := Some((q.second.keys, q.second.storedAt)));
        cache := cache.(lastRefresh := q.second.refreshedAt);
        found := FindIn(cache, q.kid);
        if found.Some? { return Key(found.value); }
      }
      result := KeyUnknown;
    }
  }

  // ---- sequences of lookups under a clock that does not go back ----------------------------------------

  predicate Timed(r: Reply, from: int, to: int)
  {
    r.Served? ==> from <= r.servedAt <= r.storedAt <= r.refreshedAt <= to
  }

  /** The clock readings of one lookup, in the order they are taken; `end` is the clock when it returns. */
  predicate InOrder(q: Lookup, end: int)
  {
    Timed(q.first, q.now, q.later) && q.now <= q.later && Timed(q.second, q.later, end) && q.later <= end
  }

  /** `qs` are lookups one after another under a nondecreasing clock. */
  ghost predicate Ordered(qs: seq<Lookup>, ends: seq<int>)
  {
    && |qs| == |ends|
    && (forall i | 0 <= i < |qs| :: InOrder(qs[i], ends[i]))
    && (forall i | 0 < i < |qs| :: ends[i-1] <= qs[i].now)
  }

  function CacheAfter(cfg: Config, qs: seq<Lookup>): Cache
  {
    if qs == [] then EMPTY
    else KeyFor(cfg, CacheAfter(cfg, qs[..|qs|-1]), qs[|qs|-1]).1
  }

  /** All successful fetches of a sequence of lookups. */
  function History(cfg: Config, qs: seq<Lookup>): seq<Reply>
  {
    if qs == [] then []
    else
      var n := |qs| - 1;
      History(cfg, qs[..n]) + Fetches(cfg, CacheAfter(cfg, qs[..n]), qs[n])
  }

  /** The cache holds the newest fetched set, fetched by time `t`. */
  ghost predicate Tracks(c: Cache, h: seq<Reply>, t: int)
  {
    && (forall r | r in h :: r.Served? && r.servedAt <= r.storedAt <= r.refreshedAt)
    && (if h == [] then c == EMPTY else c == Stored(h[|h|-1]) && h[|h|-1].refreshedAt <= t)
  }

  lemma TracksStep(cfg: Config, c: Cache, h: seq<Reply>, t: int, q: Lookup, end: int)
    requires Tracks(c, h, t) && t <= q.now && InOrder(q, end)
    ensures Tracks(KeyFor(cfg, c, q).1, h + Fetches(cfg, c, q), end)
  {
  }

  lemma {:induction false} CacheTracks(cfg: Config, qs: seq<Lookup>, ends: seq<int>)
    requires Ordered(qs, ends) && qs != []
    ensures Tracks(CacheAfter(cfg, qs), History(cfg, qs), ends[|qs|-1])
  {
    var n := |qs| - 1;
    if n == 0 {
      assert qs[..0] == [];
      TracksStep(cfg, EMPTY, [], qs[0].now, qs[0], ends[0]);
    } else {
      CacheTracks(cfg, qs[..n], ends[..n]);
      TracksStep(cfg, CacheAfter(cfg, qs[..n]), History(cfg, qs[..n]), ends[n-1], qs[n], ends[n]);
    }
  }

  /** The newest set fetched answers with the key: stored within the time-to-live, or served during the lookup. */
  ghost predicate FreshKey(cfg: Config, h: seq<Reply>, q: Lookup, jwk: Jwk)
  {
    && h != [] && h[|h|-1].Served? && FirstOf(h[|h|-1].keys, q.kid, jwk)
    && (q.now - h[|h|-1].storedAt < cfg.cacheTtl || h[|h|-1].servedAt >= q.now)
  }

  /** The newest set fetched does not have the key id, and was refreshed within the throttle or served after it. */
  ghost predicate RecentlyUnknown(cfg: Config, h: seq<Reply>, q: Lookup)
  {
    && h != [] && h[|h|-1].Served? && (forall k | k in h[|h|-1].keys :: k.kid != q.kid)
    && (q.later - h[|h|-1].refreshedAt <= cfg.keyRefreshMin || h[|h|-1].servedAt >= q.later)
  }

  lemma FreshKeyStep(cfg: Config, c: Cache, h: seq<Reply>, t: int, q: Lookup, end: int, jwk: Jwk)
    requires Tracks(c, h, t) && t <= q.now && InOrder(q, end) && KeyFor(cfg, c, q).0 == Key(jwk)
    ensures FreshKey(cfg, h + Fetches(cfg, c, q), q, jwk)
  {
    var now := h + Fetches(cfg, c, q);
    FindIs(now[|now|-1].keys, q.kid, jwk);
  }

  lemma UnknownStep(cfg: Config, c: Cache, h: seq<Reply>, t: int, q: Lookup, end: int)
    requires Tracks(c, h, t) && t <= q.now && InOrder(q, end) && KeyFor(cfg, c, q).0 == KeyUnknown
    ensures RecentlyUnknown(cfg, h + Fetches(cfg, c, q), q)
  {
  }

  /** The cache before the last lookup holds the newest set fetched before it. */
  lemma TracksBefore(cfg: Config, qs: seq<Lookup>, ends: seq<int>) returns (t: int)
    requires Ordered(qs, ends) && qs != []
    ensures Tracks(CacheAfter(cfg, qs[..|qs|-1]), History(cfg, qs[..|qs|-1]), t) && t <= qs[|qs|-1].now
  {
    var n := |qs| - 1;
    if n == 0 {
      assert qs[..0] == [];
      t := qs[0].now;
    } else {
      CacheTracks(cfg, qs[..n], ends[..n]);
      t := ends[n-1];
    }
  }

  /** A returned key is the first of its id in the newest set the API ever fetched, and that set was stored less than
      the time-to-live before the lookup, or served by the provider during it. */
  lemma KeyIsFresh(cfg: Config, qs: seq<Lookup>, ends: seq<int>, jwk: Jwk)
    requires Ordered(qs, ends) && qs != []
    requires KeyFor(cfg, CacheAfter(cfg, qs[..|qs|-1]), qs[|qs|-1]).0 == Key(jwk)
    ensures FreshKey(cfg, History(cfg, qs), qs[|qs|-1], jwk)
  {
    var n := |qs| - 1;
    var t := TracksBefore(cfg, qs, ends);
    FreshKeyStep(cfg, CacheAfter(cfg, qs[..n]), History(cfg, qs[..n]), t, qs[n], ends[n], jwk);
  }

  /** A key id is refused as unknown only when a set without it was fetched no longer than the throttle ago: a
      rotated-in key is not refused any later than that. */
  lemma UnknownIsRecent(cfg: Config, qs: seq<Lookup>, ends: seq<int>)
    requires Ordered(qs, ends) && qs != []
    requires KeyFor(cfg, CacheAfter(cfg, qs[..|qs|-1]), qs[|qs|-1]).0 == KeyUnknown
    ensures RecentlyUnknown(cfg, History(cfg, qs), qs[|qs|-1])
  {
    var n := |qs| - 1;
    var t := TracksBefore(cfg, qs, ends);
    UnknownStep(cfg, CacheAfter(cfg, qs[..n]), History(cfg, qs[..n]), t, qs[n], ends[n]);
  }

  // ---- when the provider is asked, and what is answered -----------------------------------------------------

  /** The newest set the API has fetched, if any. */
  ghost predicate Newest(cfg: Config, qs: seq<Lookup>, r: Reply)
  {
    var h := History(cfg, qs);
    h != [] && r == h[|h|-1] && r.Served?
  }

  lemma NewestIsCached(cfg: Config, qs: seq<Lookup>, ends: seq<int>, r: Reply)
    requires Ordered(qs, ends) && qs != [] && Newest(cfg, qs, r)
    ensures CacheAfter(cfg, qs) == Cache(Some((r.keys, r.storedAt)), r.refreshedAt)
  {
    CacheTracks(cfg, qs, ends);
  }

  /** A lookup that sends nothing to the provider and leaves the cache as it is. */
  ghost predicate FromCache(cfg: Config, c: Cache, q: Lookup, result: Result)
  {
    KeyFor(cfg, c, q) == (result, c) && !Asks(cfg, c, q) && Fetches(cfg, c, q) == []
  }

  /** A set within its time-to-live that has the key id is used: no request, whatever the provider would reply. */
  lemma FreshKeyUsed(cfg: Config, qs: seq<Lookup>, ends: seq<int>, r: Reply, q: Lookup, jwk: Jwk)
    requires Ordered(qs, ends) && qs != [] && Newest(cfg, qs, r)
    requires q.now - r.storedAt < cfg.cacheTtl && FirstOf(r.keys, q.kid, jwk)
    ensures FromCache(cfg, CacheAfter(cfg, qs), q, Key(jwk))
  {
    NewestIsCached(cfg, qs, ends, r);
    FindIs(r.keys, q.kid, jwk);
  }

  /** Within the throttle an id that a set within its time-to-live lacks is refused without a request. */
  lemma ThrottleHolds(cfg: Config, qs: seq<Lookup>, ends: seq<int>, r: Reply, q: Lookup)
    requires Ordered(qs, ends) && qs != [] && Newest(cfg, qs, r)
    requires q.now - r.storedAt < cfg.cacheTtl && (forall k | k in r.keys :: k.kid != q.kid)
    requires q.later - r.refreshedAt <= cfg.keyRefreshMin
    ensures FromCache(cfg, CacheAfter(cfg, qs), q, KeyUnknown)
  {
    NewestIsCached(cfg, qs, ends, r);
  }

  /** The lookup asks, and its answer is decided by `reply`: unavailable, or the first key of the id in the set served. */
  ghost predicate FromReply(cfg: Config, c: Cache, q: Lookup, reply: Reply)
  {
    && Asks(cfg, c, q)
    && match reply
       case Unavailable => KeyFor(cfg, c, q).0 == ProviderUnavailable
       case Served(keys, _, storedAt, refreshedAt) =>
         && KeyFor(cfg, c, q).1 == Cache(Some((keys, storedAt)), refreshedAt)
         && (forall jwk | FirstOf(keys, q.kid, jwk) :: KeyFor(cfg, c, q).0 == Key(jwk))
         && ((forall k | k in keys :: k.kid != q.kid) ==> KeyFor(cfg, c, q).0 == KeyUnknown)
  }

  lemma AnswerIs(c: Cache, kid: string)
    requires c.keys.Some?
    ensures forall jwk | FirstOf(c.keys.value.0, kid, jwk) :: Answer(c, kid) == Key(jwk)
    ensures (forall k | k in c.keys.value.0 :: k.kid != kid) ==> Answer(c, kid) == KeyUnknown
  {
    forall jwk | FirstOf(c.keys.value.0, kid, jwk) ensures Answer(c, kid) == Key(jwk) { FindIs(c.keys.value.0, kid, jwk); }
  }

  /** Past the throttle a rotated-in key is found: the provider is asked once more. */
  lemma RotationFound(cfg: Config, qs: seq<Lookup>, ends: seq<int>, r: Reply, q: Lookup)
    requires Ordered(qs, ends) && qs != [] && Newest(cfg, qs, r)
    requires q.now - r.storedAt < cfg.cacheTtl && (forall k | k in r.keys :: k.kid != q.kid)
    requires q.later - r.refreshedAt > cfg.keyRefreshMin
    ensures FromReply(cfg, CacheAfter(cfg, qs), q, q.second)
    ensures q.second.Unavailable? ==> KeyFor(cfg, CacheAfter(cfg, qs), q).1 == CacheAfter(cfg, qs)
  {
    NewestIsCached(cfg, qs, ends, r);
    if q.second.Served? { AnswerIs(Stored(q.second), q.kid); }
  }

  /** Without a set, or with one past its time-to-live, the provider is asked first; a set it serves decides when it has
      the key id or was refreshed within the throttle, and else the second reply does. */
  lemma StaleAsks(cfg: Config, c: Cache, q: Lookup)
    requires c.keys.None? || q.now - c.keys.value.1 >= cfg.cacheTtl
    ensures q.first.Unavailable? ==> FromReply(cfg, c, q, q.first) && KeyFor(cfg, c, q).1 == c
    ensures q.first.Served? ==>
      FromReply(cfg, c, q,
        if (forall k | k in q.first.keys :: k.kid != q.kid) && q.later - q.first.refreshedAt > cfg.keyRefreshMin
        then q.second else q.first)
  {
    if q.first.Served? {
      AnswerIs(Stored(q.first), q.kid);
      if q.second.Served? { AnswerIs(Stored(q.second), q.kid); }
    }
  }

  // ---- how often the provider is asked --------------------------------------------------------------------

  /** Two fetches are at least the time-to-live, or the throttle, apart. */
  predicate Apart(cfg: Config, a: Reply, b: Reply)
  {
    a.Served? && b.Served? && (b.servedAt - a.storedAt >= cfg.cacheTtl || b.servedAt - a.storedAt >= cfg.keyRefreshMin)
  }

  ghost predicate Spaced(cfg: Config, h: seq<Reply>)
  {
    forall i, j | 0 <= i < |h| && j == i + 1 < |h| :: Apart(cfg, h[i], h[j])
  }

  lemma SpacedStep(cfg: Config, c: Cache, h: seq<Reply>, t: int, q: Lookup, end: int)
    requires Tracks(c, h, t) && t <= q.now && InOrder(q, end) && Spaced(cfg, h)
    ensures Spaced(cfg, h + Fetches(cfg, c, q))
  {
    var more := Fetches(cfg, c, q);
    var all := h + more;
    forall i, j | 0 <= i < |all| && j == i + 1 < |all| ensures Apart(cfg, all[i], all[j]) {
      if j < |h| {
        assert Apart(cfg, h[i], h[j]);
      } else if i >= |h| {
        assert all[i] == more[i - |h|] && all[j] == more[j - |h|];
      } else {
        assert all[i] == h[i] && h[i] in h && all[j] == more[0];
      }
    }
  }

  /** However many unknown key ids arrive, successful fetches are at least the smaller of the two periods apart. */
  lemma {:induction false} FetchesSpaced(cfg: Config, qs: seq<Lookup>, ends: seq<int>)
    requires Ordered(qs, ends)
    ensures Spaced(cfg, History(cfg, qs))
  {
    if qs != [] {
      var n := |qs| - 1;
      FetchesSpaced(cfg, qs[..n], ends[..n]);
      var t := TracksBefore(cfg, qs, ends);
      SpacedStep(cfg, CacheAfter(cfg, qs[..n]), History(cfg, qs[..n]), t, qs[n], ends[n]);
    }
  }

  /** `n` spaced fetches take at least `n - 1` gaps. */
  lemma {:induction false} SpacedCount(cfg: Config, h: seq<Reply>, gap: int)
    requires gap <= cfg.cacheTtl && gap <= cfg.keyRefreshMin && Spaced(cfg, h) && h != [] && forall r | r in h :: r.Served? && r.servedAt <= r.storedAt
    ensures h[0].Served? && h[|h|-1].Served?
    ensures h[|h|-1].storedAt >= h[0].storedAt + (|h| - 1) * gap
  {
    var n := |h| - 1;
    assert h[n] in h && h[0] in h;
    if n > 0 {
      SpacedCount(cfg, h[..n], gap);
      assert h[..n][n-1] == h[n-1] && Apart(cfg, h[n-1], h[n]);
      assert (n - 1) * gap + gap == n * gap;
    }
  }

  /** Every fetch is stored at or after the first lookup. */
  lemma {:induction false} HistorySince(cfg: Config, qs: seq<Lookup>, ends: seq<int>)
    requires Ordered(qs, ends) && qs != []
    ensures qs[0].now <= qs[|qs|-1].now
    ensures forall r | r in History(cfg, qs) :: r.Served? && r.servedAt <= r.storedAt && qs[0].now <= r.storedAt
  {
    var n := |qs| - 1;
    if n == 0 {
      assert qs[..0] == [];
    } else {
      HistorySince(cfg, qs[..n], ends[..n]);
      assert InOrder(qs[n-1], ends[n-1]) && ends[n-1] <= qs[n].now;
    }
    assert InOrder(qs[n], ends[n]);
  }

  /** The provider's load is bounded by time and not by requests: any number of lookups, for any key ids, over a period
      cause at most one successful fetch more than there are gaps in the period. */
  lemma FetchCountBound(cfg: Config, qs: seq<Lookup>, ends: seq<int>, gap: int)
    requires gap <= cfg.cacheTtl && gap <= cfg.keyRefreshMin
    requires Ordered(qs, ends) && qs != [] && History(cfg, qs) != []
    ensures (|History(cfg, qs)| - 1) * gap <= ends[|qs|-1] - qs[0].now
  {
    var h := History(cfg, qs);
    FetchesSpaced(cfg, qs, ends);
    HistorySince(cfg, qs, ends);
    CacheTracks(cfg, qs, ends);
    SpacedCount(cfg, h, gap);
    assert h[0] in h && h[|h|-1] in h;
  }

  /** The throttle does not cover failures: after a lookup that could not reach the provider, the same key id asks
      the provider again at once. */
  lemma FailureNotThrottled(cfg: Config, c: Cache, q: Lookup, end: int, again: Lookup)
    requires KeyFor(cfg, c, q).0 == ProviderUnavailable && InOrder(q, end)
    requires again.kid == q.kid && again.now >= end && again.later >= again.now
    ensures Asks(cfg, KeyFor(cfg, c, q).1, again)
  {
  }
}
