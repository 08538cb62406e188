/** The per-principal token bucket (apps/cloud-api/src/rate.rs), over the reals. */
module RateLimiter {

  /** Tokens left and the time of the last request. */
  datatype Bucket = Bucket(level: real, at: real)

  datatype Limits = Limits(capacity: nat, perSecond: real)

  function Min(a: real, b: real): real
  {
    if a <= b then a else b
  }

  /** The tokens refilled between two requests (none when the clock went back). */
  function Refill(l: Limits, from: real, to: real): real
  {
    if to > from then (to - from) * l.perSecond else 0.0
  }

  /** The level at `now`, capped. */
  function Refilled(l: Limits, b: Bucket, now: real): real
  {
    Min(b.level + Refill(l, b.at, now), l.capacity as real)
  }

  /** The bucket a request at `now` leaves behind, when it takes a token and when it does not. */
  function Spend(l: Limits, b: Bucket, now: real, take: bool): Bucket
  {
    Bucket(Refilled(l, b, now) - (if take then 1.0 else 0.0), now)
  }

  function Admits(l: Limits, b: Bucket, now: real): bool
  {
    Refilled(l, b, now) >= 1.0
  }

  // ---- the limiter as it runs -------------------------------------------------------------

  /** The bucket of `key`: a full one when it was never seen. */
  function BucketOf(l: Limits, buckets: map<string, Bucket>, key: string, now: real): Bucket
  {
    if key in buckets then buckets[key] else Bucket(l.capacity as real, now)
  }

  class Limiter {
    const limits: Limits
    var buckets: map<string, Bucket>

    constructor (capacity: nat, perSecond: real)
      ensures limits == Limits(capacity, perSecond) && buckets == map[]
    {
      limits := Limits(capacity, perSecond);
      buckets := map[];
    }

    method AdmitAt(key: string, now: real) returns (admitted: bool)
      modifies this
      ensures var b := BucketOf(limits, old(buckets), key, now);
        admitted == Admits(limits, b, now) && buckets == old(buckets)[key := Spend(limits, b, now, admitted)]
    {
      var entry := if key in buckets then buckets[key] else Bucket(limits.capacity as real, now);
      var elapsed := if now > entry.at then now - entry.at else 0.0;
      assert elapsed * limits.perSecond == Refill(limits, entry.at, now);
      entry := entry.(level := Min(entry.level + elapsed * limits.perSecond, limits.capacity as real));
      entry := entry.(at := now);
      if entry.level >= 1.0 {
        entry := entry.(level := entry.level - 1.0);
        admitted := true;
      } else {
        admitted := false;
      }
      buckets := buckets[key := entry];
    }
  }

  // ---- many keys ----------------------------------------------------------------------------

  datatype Request = Request(key: string, now: real)

  /** The answers to a sequence of requests, and the buckets after it. */
  function Serve(l: Limits, buckets: map<string, Bucket>, rs: seq<Request>): (r: (seq<bool>, map<string, Bucket>))
    ensures |r.0| == |rs|
  {
    if rs == [] then ([], buckets) else
    var n := |rs| - 1;
    var before := Serve(l, buckets, rs[..n]);
    var b := BucketOf(l, before.1, rs[n].key, rs[n].now);
    var take := Admits(l, b, rs[n].now);
    (before.0 + [take], before.1[rs[n].key := Spend(l, b, rs[n].now, take)])
  }

  /** The times one key asks at, and the answers it gets. */
  function TimesOf(rs: seq<Request>, key: string): seq<real>
  {
    if rs == [] then [] else
    var n := |rs| - 1;
    if rs[n].key == key then TimesOf(rs[..n], key) + [rs[n].now] else TimesOf(rs[..n], key)
  }

  function AnswersOf(rs: seq<Request>, answers: seq<bool>, key: string): seq<bool>
    requires |rs| == |answers|
  {
    if rs == [] then [] else
    var n := |rs| - 1;
    if rs[n].key == key then AnswersOf(rs[..n], answers[..n], key) + [answers[n]]
    else AnswersOf(rs[..n], answers[..n], key)
  }

  // ---- one key --------------------------------------------------------------------------------

  /** The tokens refilled between each request of a key and the one before it. */
  function Gains(l: Limits, ts: seq<real>): (gains: seq<real>)
    ensures |gains| == |ts|
  {
    if ts == [] then [] else
    var n := |ts| - 1;
    Gains(l, ts[..n]) + [if n > 0 then Refill(l, ts[n-1], ts[n]) else 0.0]
  }

  /** The level after requests with these refills of which `takes` took a token, from a full bucket. */
  function Level(cap: real, gains: seq<real>, takes: seq<bool>): real
    requires |gains| == |takes|
  {
    if gains == [] then cap else
    var n := |gains| - 1;
    Min(Level(cap, gains[..n], takes[..n]) + gains[n], cap) - (if takes[n] then 1.0 else 0.0)
  }

  /** A request with refill `gain` after these finds a whole token. */
  predicate HasToken(cap: real, gains: seq<real>, takes: seq<bool>, gain: real)
    requires |gains| == |takes|
  {
    Min(Level(cap, gains, takes) + gain, cap) >= 1.0
  }

  /** `admit_at` for one key: take whenever a whole token is there. */
  function Greedy(cap: real, gains: seq<real>): (takes: seq<bool>)
    ensures |takes| == |gains|
  {
    if gains == [] then [] else
    var n := |gains| - 1;
    var before := Greedy(cap, gains[..n]);
    before + [HasToken(cap, gains[..n], before, gains[n])]
  }

  /** Interleaving other keys changes nothing: each key is answered as if it were alone. */
  lemma {:induction false} KeysIndependent(l: Limits, rs: seq<Request>, key: string)
    ensures var ts := TimesOf(rs, key);
      var takes := Greedy(l.capacity as real, Gains(l, ts));
      && AnswersOf(rs, Serve(l, map[], rs).0, key) == takes
      && (key in Serve(l, map[], rs).1 <==> ts != [])
      && (ts != [] ==>
            Serve(l, map[], rs).1[key] == Bucket(Level(l.capacity as real, Gains(l, ts), takes), ts[|ts|-1]))
  {
    if rs != [] {
      var n := |rs| - 1;
      KeysIndependent(l, rs[..n], key);
      assert Serve(l, map[], rs).0[..n] == Serve(l, map[], rs[..n]).0;
      if rs[n].key == key {
        OwnRequest(l, rs, key);
      }
    }
  }

  lemma OwnRequest(l: Limits, rs: seq<Request>, key: string)
    requires rs != [] && rs[|rs|-1].key == key
    requires var before := rs[..|rs|-1];
      var ts := TimesOf(before, key);
      var takes := Greedy(l.capacity as real, Gains(l, ts));
      && (key in Serve(l, map[], before).1 <==> ts != [])
      && (ts != [] ==>
            Serve(l, map[], before).1[key] == Bucket(Level(l.capacity as real, Gains(l, ts), takes), ts[|ts|-1]))
    ensures var ts := TimesOf(rs, key);
      var takes := Greedy(l.capacity as real, Gains(l, ts));
      && ts != [] && takes == Greedy(l.capacity as real, Gains(l, ts[..|ts|-1])) + [Serve(l, map[], rs).0[|rs|-1]]
      && key in Serve(l, map[], rs).1
      && Serve(l, map[], rs).1[key] == Bucket(Level(l.capacity as real, Gains(l, ts), takes), ts[|ts|-1])
  {
    var n := |rs| - 1;
    var cap := l.capacity as real;
    var earlier := TimesOf(rs[..n], key);
    var ts := TimesOf(rs, key);
    var k := |earlier|;
    assert ts == earlier + [rs[n].now] && ts[..k] == earlier;
    var gains := Gains(l, ts);
    assert gains[..k] == Gains(l, earlier);
    var takes := Greedy(cap, gains);
    assert takes[..k] == Greedy(cap, gains[..k]);
    var b := BucketOf(l, Serve(l, map[], rs[..n]).1, key, rs[n].now);
    assert Refilled(l, b, rs[n].now) == Min(Level(cap, gains[..k], takes[..k]) + gains[k], cap);
  }

  // ---- what one key can get ---------------------------------------------------------------------

  ghost predicate NonNegative(gains: seq<real>)
  {
    forall i | 0 <= i < |gains| :: gains[i] >= 0.0
  }

  function Count(takes: seq<bool>): nat
  {
    if takes == [] then 0 else Count(takes[..|takes|-1]) + (if takes[|takes|-1] then 1 else 0)
  }

  function Sum(gains: seq<real>): real
  {
    if gains == [] then 0.0 else Sum(gains[..|gains|-1]) + gains[|gains|-1]
  }

  /** A choice that only ever spends tokens its own bucket holds. */
  ghost predicate Affordable(cap: real, gains: seq<real>, takes: seq<bool>)
    requires |gains| == |takes|
  {
    forall i | 0 <= i < |gains| && takes[i] :: HasToken(cap, gains[..i], takes[..i], gains[i])
  }

  lemma AffordablePrefix(cap: real, gains: seq<real>, takes: seq<bool>, n: nat)
    requires |gains| == |takes| && n <= |gains| && Affordable(cap, gains, takes)
    ensures Affordable(cap, gains[..n], takes[..n])
  {
    forall i | 0 <= i < n && takes[..n][i]
      ensures HasToken(cap, gains[..n][..i], takes[..n][..i], gains[..n][i])
    {
      assert gains[..n][..i] == gains[..i] && takes[..n][..i] == takes[..i];
    }
  }

  lemma {:induction false} GreedyAffordable(cap: real, gains: seq<real>)
    ensures Affordable(cap, gains, Greedy(cap, gains))
  {
    if gains != [] {
      var n := |gains| - 1;
      var takes := Greedy(cap, gains);
      GreedyAffordable(cap, gains[..n]);
      assert takes[..n] == Greedy(cap, gains[..n]);
      forall i | 0 <= i < |gains| && takes[i] ensures HasToken(cap, gains[..i], takes[..i], gains[i]) {
        if i < n {
          assert gains[..n][..i] == gains[..i] && takes[..n][..i] == takes[..i] && takes[..n][i];
        }
      }
    }
  }

  /** The level of an affordable choice stays between zero and the capacity. */
  lemma {:induction false} LevelBounds(cap: real, gains: seq<real>, takes: seq<bool>)
    requires |gains| == |takes| && cap >= 0.0 && NonNegative(gains) && Affordable(cap, gains, takes)
    ensures 0.0 <= Level(cap, gains, takes) <= cap
  {
    if gains != [] {
      var n := |gains| - 1;
      AffordablePrefix(cap, gains, takes, n);
      LevelBounds(cap, gains[..n], takes[..n]);
      assert takes[n] ==> HasToken(cap, gains[..n], takes[..n], gains[n]);
    }
  }

  lemma CountFrom(takes: seq<bool>, i: nat)
    requires i < |takes|
    ensures var n := |takes| - 1; Count(takes[i..]) == Count(takes[..n][i..]) + if takes[n] then 1 else 0
  {
    assert takes[i..][..|takes|-1-i] == takes[..|takes|-1][i..];
  }

  lemma SumFrom(gains: seq<real>, i: nat)
    requires i < |gains|
    ensures var n := |gains| - 1; Sum(gains[i..]) == Sum(gains[..n][i..]) + gains[n]
  {
    assert gains[i..][..|gains|-1-i] == gains[..|gains|-1][i..];
  }

  /** What is taken from request `i` on, plus what is left, is at most the capacity plus the refills since. */
  lemma {:induction false} WindowBound(cap: real, gains: seq<real>, takes: seq<bool>, i: nat)
    requires |gains| == |takes| && i < |gains| && cap >= 0.0 && NonNegative(gains) && Affordable(cap, gains, takes)
    ensures Count(takes[i..]) as real + Level(cap, gains, takes) <= cap + Sum(gains[i+1..])
  {
    var n := |gains| - 1;
    CountFrom(takes, i);
    if i == n {
      assert takes[..n][i..] == [] && gains[i+1..] == [];
    } else {
      AffordablePrefix(cap, gains, takes, n);
      WindowBound(cap, gains[..n], takes[..n], i);
      SumFrom(gains, i + 1);
    }
  }

  // ---- optimality ----------------------------------------------------------------------------------

  /** At every prefix `admit_at` has admitted at least as many requests as any other affordable choice, and is
      behind in tokens by no more than what it has admitted extra. */
  lemma {:induction false} GreedyOptimal(cap: real, gains: seq<real>, takes: seq<bool>)
    requires |gains| == |takes| && cap >= 0.0 && NonNegative(gains) && Affordable(cap, gains, takes)
    ensures Count(takes) <= Count(Greedy(cap, gains))
    ensures Level(cap, gains, takes) + Count(takes) as real
      <= Level(cap, gains, Greedy(cap, gains)) + Count(Greedy(cap, gains)) as real
  {
    if gains != [] {
      var n := |gains| - 1;
      var greedy := Greedy(cap, gains);
      AffordablePrefix(cap, gains, takes, n);
      GreedyOptimal(cap, gains[..n], takes[..n]);
      assert greedy[..n] == Greedy(cap, gains[..n]);
      assert takes[n] ==> HasToken(cap, gains[..n], takes[..n], gains[n]);
    }
  }

  // ---- in terms of time --------------------------------------------------------------------------------

  ghost predicate Nondecreasing(ts: seq<real>)
  {
    forall i, j | 0 <= i <= j < |ts| :: ts[i] <= ts[j]
  }

  lemma {:induction false} GainsNonNegative(l: Limits, ts: seq<real>)
    requires l.perSecond >= 0.0
    ensures NonNegative(Gains(l, ts))
  {
    if ts != [] {
      var n := |ts| - 1;
      GainsNonNegative(l, ts[..n]);
      if n > 0 { RefillNonNegative(l, ts[n-1], ts[n]); }
    }
  }

  lemma RefillNonNegative(l: Limits, from: real, to: real)
    requires l.perSecond >= 0.0
    ensures Refill(l, from, to) >= 0.0
  {
    if to > from { Products(to - from, l.perSecond); }
  }

  lemma Products(a: real, p: real)
    requires p >= 0.0
    ensures a >= 0.0 ==> a * p >= 0.0
    ensures a <= 0.0 ==> a * p <= 0.0
  {
  }

  lemma {:induction false} GainsPrefix(l: Limits, ts: seq<real>, n: nat)
    requires n <= |ts|
    ensures Gains(l, ts)[..n] == Gains(l, ts[..n])
  {
    if n < |ts| {
      GainsPrefix(l, ts[..|ts|-1], n);
      assert ts[..|ts|-1][..n] == ts[..n];
    } else {
      assert ts[..n] == ts;
    }
  }

  lemma RefillAdds(l: Limits, a: real, b: real, c: real)
    requires a <= b <= c
    ensures Refill(l, a, c) == Refill(l, a, b) + Refill(l, b, c)
  {
    assert (c - a) * l.perSecond == (b - a) * l.perSecond + (c - b) * l.perSecond;
  }

  /** Refills add up to the elapsed time at the steady rate. */
  lemma {:induction false} GainsTelescope(l: Limits, ts: seq<real>, i: nat)
    requires i < |ts| && Nondecreasing(ts)
    ensures Sum(Gains(l, ts)[i+1..]) == Refill(l, ts[i], ts[|ts|-1])
  {
    var n := |ts| - 1;
    var gains := Gains(l, ts);
    if i == n {
      assert gains[i+1..] == [];
    } else {
      GainsTelescope(l, ts[..n], i);
      assert gains[..n] == Gains(l, ts[..n]);
      SumFrom(gains, i + 1);
      RefillAdds(l, ts[i], ts[n-1], ts[n]);
    }
  }

  lemma KeyWindow(l: Limits, ts: seq<real>, i: nat)
    requires l.perSecond >= 0.0 && Nondecreasing(ts) && i < |ts|
    ensures Count(Greedy(l.capacity as real, Gains(l, ts))[i..]) as real
      <= l.capacity as real + Refill(l, ts[i], ts[|ts|-1])
  {
    var cap := l.capacity as real;
    var gains, takes := Gains(l, ts), Greedy(cap, Gains(l, ts));
    GainsNonNegative(l, ts);
    GreedyAffordable(cap, gains);
    WindowBound(cap, gains, takes, i);
    LevelBounds(cap, gains, takes);
    GainsTelescope(l, ts, i);
  }

  /** From request `i` to request `j` at most the capacity, plus what the time between them refills, is taken. */
  ghost predicate InWindow(l: Limits, ts: seq<real>, takes: seq<bool>, i: int, j: int)
    requires 0 <= i <= j < |ts| == |takes|
  {
    Count(takes[i..j+1]) as real <= l.capacity as real + (ts[j] - ts[i]) * l.perSecond
  }

  ghost predicate Conforms(l: Limits, ts: seq<real>, takes: seq<bool>)
  {
    |takes| == |ts| && forall i, j | 0 <= i <= j < |ts| :: InWindow(l, ts, takes, i, j)
  }

  lemma InWindowIs(l: Limits, ts: seq<real>, takes: seq<bool>, i: nat, j: nat, refill: real)
    requires i <= j < |ts| == |takes| && refill == (ts[j] - ts[i]) * l.perSecond
    ensures InWindow(l, ts, takes, i, j) <==> Count(takes[i..j+1]) as real <= l.capacity as real + refill
  {
  }

  lemma WindowOf(l: Limits, ts: seq<real>, takes: seq<bool>, i: nat, j: nat)
    requires i <= j < |ts| == |takes| && ts[i] <= ts[j]
    ensures InWindow(l, ts, takes, i, j) <==>
      Count(takes[i..j+1]) as real <= l.capacity as real + Refill(l, ts[i], ts[j])
  {
    RefillIs(l, ts[i], ts[j]);
    InWindowIs(l, ts, takes, i, j, Refill(l, ts[i], ts[j]));
  }

  lemma AnswersWithin(l: Limits, ts: seq<real>, i: nat, j: nat)
    requires l.perSecond >= 0.0 && Nondecreasing(ts) && i <= j < |ts|
    ensures Count(Greedy(l.capacity as real, Gains(l, ts))[i..j+1]) as real <= l.capacity as real + Refill(l, ts[i], ts[j])
  {
    KeyWindow(l, ts[..j+1], i);
    WindowPrefix(l, ts, i, j);
  }

  /** What a key is answered conforms in every window, whatever other keys ask meanwhile. */
  lemma LimiterWindow(l: Limits, rs: seq<Request>, key: string)
    requires l.perSecond >= 0.0 && Nondecreasing(TimesOf(rs, key))
    ensures Conforms(l, TimesOf(rs, key), AnswersOf(rs, Serve(l, map[], rs).0, key))
  {
    KeysIndependent(l, rs, key);
    var ts := TimesOf(rs, key);
    var answers := Greedy(l.capacity as real, Gains(l, ts));
    forall i: nat, j: nat | i <= j < |ts| ensures InWindow(l, ts, answers, i, j) {
      AnswersWithin(l, ts, i, j);
      WindowOf(l, ts, answers, i, j);
    }
  }

  lemma RefillIs(l: Limits, from: real, to: real)
    requires from <= to
    ensures Refill(l, from, to) == (to - from) * l.perSecond
  {
    if from == to { assert (to - from) * l.perSecond == 0.0; }
  }

  /** What a key is answered up to a request depends on the requests up to it. */
  lemma WindowPrefix(l: Limits, ts: seq<real>, i: nat, j: nat)
    requires i <= j < |ts|
    ensures var takes := Greedy(l.capacity as real, Gains(l, ts));
      |takes| == |ts| && takes[i..j+1] == Greedy(l.capacity as real, Gains(l, ts[..j+1]))[i..]
  {
    var takes := Greedy(l.capacity as real, Gains(l, ts));
    GainsPrefix(l, ts, j + 1);
    GreedyPrefix(l.capacity as real, Gains(l, ts), j + 1);
    assert takes[..j+1][i..] == takes[i..j+1];
  }

  /** The level is what some window has left: the one that starts where the bucket was last full. */
  lemma {:induction false} LevelAttained(cap: real, gains: seq<real>, takes: seq<bool>) returns (i: nat)
    requires |gains| == |takes| && gains != [] && NonNegative(gains)
    ensures i < |gains| && Level(cap, gains, takes) == cap + Sum(gains[i+1..]) - Count(takes[i..]) as real
  {
    var n := |gains| - 1;
    i := n;
    if n > 0 && Level(cap, gains[..n], takes[..n]) + gains[n] <= cap {
      i := LevelAttained(cap, gains[..n], takes[..n]);
      SumFrom(gains, i + 1);
    } else {
      assert gains[n+1..] == [] && takes[..n][n..] == [];
      if n == 0 { OneRequest(cap, gains, takes); }
    }
    CountFrom(takes, i);
  }

  lemma OneRequest(cap: real, gains: seq<real>, takes: seq<bool>)
    requires |gains| == |takes| == 1
    ensures Level(cap, gains, takes) == Min(cap + gains[0], cap) - (if takes[0] then 1.0 else 0.0)
  {
    assert gains[..0] == [] && takes[..0] == [];
  }

  ghost predicate InTokens(cap: real, gains: seq<real>, takes: seq<bool>, i: int, j: int)
    requires 0 <= i <= j < |gains| == |takes|
  {
    Count(takes[i..j+1]) as real <= cap + Sum(gains[i+1..j+1])
  }

  /** A choice within every window never takes a token that is not there. */
  lemma WindowsAfford(cap: real, gains: seq<real>, takes: seq<bool>)
    requires |gains| == |takes| && NonNegative(gains)
    requires forall i, j | 0 <= i <= j < |takes| :: InTokens(cap, gains, takes, i, j)
    ensures Affordable(cap, gains, takes)
  {
    forall k | 0 <= k < |gains| && takes[k] ensures HasToken(cap, gains[..k], takes[..k], gains[k]) {
      var i := LevelAttained(cap, gains[..k+1], takes[..k+1]);
      assert gains[..k+1][..k] == gains[..k] && takes[..k+1][..k] == takes[..k];
      assert gains[..k+1][i+1..] == gains[i+1..k+1] && takes[..k+1][i..] == takes[i..k+1];
      assert InTokens(cap, gains, takes, i, k);
    }
  }

  lemma WindowGains(l: Limits, ts: seq<real>, i: nat, j: nat)
    requires Nondecreasing(ts) && i <= j < |ts|
    ensures Sum(Gains(l, ts)[i+1..j+1]) == Refill(l, ts[i], ts[j])
  {
    GainsTelescope(l, ts[..j+1], i);
    GainsPrefix(l, ts, j + 1);
    assert Gains(l, ts)[..j+1][i+1..] == Gains(l, ts)[i+1..j+1];
  }

  lemma WindowInTokens(l: Limits, ts: seq<real>, takes: seq<bool>, i: nat, j: nat)
    requires Nondecreasing(ts) && i <= j < |ts| == |takes| && InWindow(l, ts, takes, i, j)
    ensures InTokens(l.capacity as real, Gains(l, ts), takes, i, j)
  {
    WindowGains(l, ts, i, j);
    WindowOf(l, ts, takes, i, j);
  }

  /** The limiter is optimal for each key: no choice that conforms admits more of its requests, at any prefix. */
  lemma LimiterOptimal(l: Limits, rs: seq<Request>, key: string, takes: seq<bool>, n: nat)
    requires l.perSecond >= 0.0 && Nondecreasing(TimesOf(rs, key))
    requires Conforms(l, TimesOf(rs, key), takes) && n <= |takes|
    ensures var answers := AnswersOf(rs, Serve(l, map[], rs).0, key);
      |answers| == |takes| && Count(takes[..n]) <= Count(answers[..n])
  {
    var ts := TimesOf(rs, key);
    var gains := Gains(l, ts);
    GainsNonNegative(l, ts);
    var cap := l.capacity as real;
    forall i: nat, j: nat | i <= j < |takes| ensures InTokens(cap, gains, takes, i, j) {
      WindowInTokens(l, ts, takes, i, j);
    }
    WindowsAfford(l.capacity as real, gains, takes);
    OptimalByTokens(l, rs, key, takes, n);
  }

  /** Request `k` finds `gain` refilled: for the time since the request before, nothing when the clock went back. */
  predicate GainsBy(l: Limits, ts: seq<real>, k: int, gain: real)
    requires 0 <= k < |ts|
  {
    gain == if k > 0 && ts[k] > ts[k-1] then (ts[k] - ts[k-1]) * l.perSecond else 0.0
  }

  lemma GainAt(l: Limits, ts: seq<real>, k: nat)
    requires k < |ts|
    ensures GainsBy(l, ts, k, Gains(l, ts)[k])
  {
    if k > 0 {
      GainsAt(l, ts, k);
    } else {
      GainsPrefix(l, ts, 1);
      assert Gains(l, ts)[0] == Gains(l, ts)[..1][0];
    }
  }

  lemma GainsAre(l: Limits, ts: seq<real>, gains: seq<real>)
    requires |gains| == |ts| && forall k | 0 <= k < |gains| :: GainsBy(l, ts, k, gains[k])
    ensures gains == Gains(l, ts)
  {
    var same := Gains(l, ts);
    forall k | 0 <= k < |ts| ensures gains[k] == same[k] {
      GainAt(l, ts, k);
      assert GainsBy(l, ts, k, gains[k]);
    }
  }

  /** The same in tokens, under a clock that may go back: `gains` are the refills, none where it does. */
  lemma LimiterOptimalAnyClock(l: Limits, rs: seq<Request>, key: string, gains: seq<real>, takes: seq<bool>, n: nat)
    requires l.perSecond >= 0.0 && |takes| == |gains| == |TimesOf(rs, key)| && n <= |takes|
    requires forall k | 0 <= k < |gains| :: GainsBy(l, TimesOf(rs, key), k, gains[k])
    requires Affordable(l.capacity as real, gains, takes)
    ensures var answers := AnswersOf(rs, Serve(l, map[], rs).0, key);
      |answers| == |takes| && Count(takes[..n]) <= Count(answers[..n])
  {
    var ts := TimesOf(rs, key);
    GainsAre(l, ts, gains);
    OptimalByTokens(l, rs, key, takes, n);
  }

  lemma OptimalByTokens(l: Limits, rs: seq<Request>, key: string, takes: seq<bool>, n: nat)
    requires l.perSecond >= 0.0 && |takes| == |TimesOf(rs, key)| && n <= |takes|
    requires Affordable(l.capacity as real, Gains(l, TimesOf(rs, key)), takes)
    ensures var answers := AnswersOf(rs, Serve(l, map[], rs).0, key);
      |answers| == |takes| && Count(takes[..n]) <= Count(answers[..n])
  {
    KeysIndependent(l, rs, key);
    var cap := l.capacity as real;
    var gains := Gains(l, TimesOf(rs, key));
    GainsNonNegative(l, TimesOf(rs, key));
    AffordablePrefix(cap, gains, takes, n);
    GreedyOptimal(cap, gains[..n], takes[..n]);
    GreedyPrefix(cap, gains, n);
  }

  lemma {:induction false} GreedyPrefix(cap: real, gains: seq<real>, n: nat)
    requires n <= |gains|
    ensures Greedy(cap, gains)[..n] == Greedy(cap, gains[..n])
  {
    if n < |gains| {
      GreedyPrefix(cap, gains[..|gains|-1], n);
      assert gains[..|gains|-1][..n] == gains[..n];
    } else {
      assert gains[..n] == gains;
    }
  }

  /** The stored level stays between zero and the capacity. */
  lemma LimiterLevel(l: Limits, rs: seq<Request>, key: string)
    requires l.perSecond >= 0.0 && key in Serve(l, map[], rs).1
    ensures 0.0 <= Serve(l, map[], rs).1[key].level <= l.capacity as real
  {
    KeysIndependent(l, rs, key);
    var gains := Gains(l, TimesOf(rs, key));
    GainsNonNegative(l, TimesOf(rs, key));
    GreedyAffordable(l.capacity as real, gains);
    LevelBounds(l.capacity as real, gains, Greedy(l.capacity as real, gains));
  }

  lemma {:induction false} SpacedAdmitted(cap: real, gains: seq<real>)
    requires cap >= 1.0 && NonNegative(gains) && forall i | 0 < i < |gains| :: gains[i] >= 1.0
    ensures forall i | 0 <= i < |gains| :: Greedy(cap, gains)[i]
    ensures Level(cap, gains, Greedy(cap, gains)) >= 0.0
  {
    if gains != [] {
      var n := |gains| - 1;
      var takes := Greedy(cap, gains);
      SpacedAdmitted(cap, gains[..n]);
      assert takes[..n] == Greedy(cap, gains[..n]);
      if n == 0 { assert gains[..0] == [] && takes[..0] == []; }
      forall i | 0 <= i < |gains| ensures takes[i] {
        if i < n { assert takes[..n][i]; }
      }
    }
  }

  /** Waiting `1 / per_second` refills a whole token. */
  lemma SpacingRefills(l: Limits, from: real, to: real)
    requires l.perSecond > 0.0 && to >= from + 1.0 / l.perSecond
    ensures Refill(l, from, to) >= 1.0
  {
    var wait := 1.0 / l.perSecond;
    Inverse(l.perSecond);
    Products(to - from - wait, l.perSecond);
    Differences(to - from, wait, l.perSecond);
  }

  lemma Inverse(p: real)
    requires p > 0.0
    ensures 1.0 / p > 0.0 && (1.0 / p) * p == 1.0
  {
  }

  lemma Differences(a: real, b: real, p: real)
    ensures (a - b) * p == a * p - b * p
  {
  }

  lemma GainsAt(l: Limits, ts: seq<real>, i: nat)
    requires 0 < i < |ts|
    ensures Gains(l, ts)[i] == Refill(l, ts[i-1], ts[i])
  {
    GainsPrefix(l, ts, i + 1);
    assert Gains(l, ts)[i] == Gains(l, ts)[..i+1][i];
  }

  /** A caller that waits out one token's refill between requests is never refused. */
  lemma SpacedNeverRefused(l: Limits, rs: seq<Request>, key: string)
    requires l.capacity >= 1 && l.perSecond > 0.0
    requires var ts := TimesOf(rs, key);
      forall i | 0 < i < |ts| :: ts[i] >= ts[i-1] + 1.0 / l.perSecond
    ensures var answers := AnswersOf(rs, Serve(l, map[], rs).0, key);
      forall i | 0 <= i < |answers| :: answers[i]
  {
    KeysIndependent(l, rs, key);
    var ts := TimesOf(rs, key);
    var gains := Gains(l, ts);
    GainsNonNegative(l, ts);
    forall i | 0 < i < |gains| ensures gains[i] >= 1.0 {
      SpacingRefills(l, ts[i-1], ts[i]);
      GainsAt(l, ts, i);
    }
    SpacedAdmitted(l.capacity as real, gains);
  }
}
