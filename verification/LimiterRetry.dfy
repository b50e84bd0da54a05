/** Retry-After is tight exactly when an idle TTL refills one token, and a denied call costs nothing
    exactly when it refills the bucket; and what the middleware of internal/ratelimit/middleware.go
    tells the client. */
module LimiterRetry {
  import opened Wrappers
  import opened TokenBucket
  import opened RateLimiter
  import opened LimiterBounds
  import opened LimiterExactness

  // ----- tightness -----

  predicate From(times: seq<real>, now: real) {
    times == [] || (now <= times[0] && From(times[1..], times[0]))
  }

  lemma {:induction false} CallTimesFrom(es: seq<Event>, k: string, now: real)
    requires Timed(es, now)
    ensures From(CallTimes(es, k), now)
    decreases es
  {
    if es != [] {
      CallTimesFrom(es[1..], k, es[0].at);
      var later := CallTimes(es[1..], k);
      if Calls(es[0], k) { assert ([es[0].at] + later)[1..] == later; }
    }
  }

  lemma {:induction false} FromReaches(times: seq<real>, now: real, j: nat)
    requires From(times, now) && j < |times|
    ensures now <= times[0] <= times[j]
    decreases j
  {
    if j > 0 { FromReaches(times[1..], times[0], j - 1); }
  }

  /** Key k has been denied and lacks a token until `until`, which comes before it can fall idle. */
  predicate Waiting(c: Config, m: Clients, k: string, until: real) {
    && k in m && m[k].bucket.last == m[k].lastSeen && 0.0 <= m[k].bucket.tokens <= c.burst as real
    && m[k].bucket.tokens + Accrued(c.rps, until - m[k].lastSeen) <= 1.0
    && until <= m[k].lastSeen + c.ttl
  }

  lemma WaitingOwnCall(c: Config, m: Clients, k: string, until: real, at: real)
    requires Valid(c) && c.burst >= 1 && Waiting(c, m, k, until) && m[k].lastSeen <= at < until
    ensures var (d, m') := AllowStep(c, m, k, at);
      !d.allowed && Waiting(c, m', k, until) && m'[k].lastSeen == at
  {
    var b := m[k].bucket;
    var passed, left := at - b.last, until - at;
    AccruedAdds(c.rps, passed, left);
    assert passed + left == until - b.last;
    assert Accrued(c.rps, left) > 0.0;
    TakeMeaning(c, b, at);
    assert Level(c, b, at) <= b.tokens + Accrued(c.rps, passed);
    hide Take, Level, Accrued;
  }

  lemma WaitingOther(c: Config, m: Clients, k: string, until: real, e: Event)
    requires Valid(c) && Waiting(c, m, k, until) && e.at < until && !Calls(e, k)
    ensures Waiting(c, Apply(c, m, e), k, until) && Apply(c, m, e)[k] == m[k]
  {
    hide Take, Accrued;
  }

  /** No call before `until` is allowed, whatever else happens. */
  lemma {:induction false} DeniedUntil(c: Config, m: Clients, es: seq<Event>, k: string, until: real, j: nat)
    requires Valid(c) && c.burst >= 1 && Waiting(c, m, k, until) && Timed(es, m[k].lastSeen)
    requires j < |CallTimes(es, k)| && CallTimes(es, k)[j] < until
    ensures j < |DecisionsFor(c, m, es, k)| && !DecisionsFor(c, m, es, k)[j].allowed
    decreases es
  {
    hide Take, Level, AllowStep, EvictStep, Accrued;
    var e, rest := es[0], es[1..];
    CallTimesFrom(es, k, m[k].lastSeen);
    CallTimesFrom(rest, k, e.at);
    if Calls(e, k) {
      FromReaches(CallTimes(es, k), m[k].lastSeen, j);
      WaitingOwnCall(c, m, k, until, e.at);
      if j > 0 { DeniedUntil(c, Apply(c, m, e), rest, k, until, j - 1); }
    } else {
      FromReaches(CallTimes(rest, k), e.at, j);
      WaitingOther(c, m, k, until, e);
      TimedLater(rest, m[k].lastSeen, e.at);
      DeniedUntil(c, Apply(c, m, e), rest, k, until, j);
    }
  }

  lemma TimedLater(es: seq<Event>, now: real, later: real)
    requires Timed(es, later) && now <= later
    ensures Timed(es, now)
  {
  }

  /** One more token never takes longer than an idle TTL. */
  predicate TokenPerTTL(c: Config) { c.rps * c.ttl >= 1.0 }

  /** After a denial, the wait it reports ends before the key can fall idle. */
  lemma DenialWaits(c: Config, m: Clients, k: string, at: real)
    requires Valid(c) && c.burst >= 1 && TokenPerTTL(c) && 0.0 <= at && (k in m ==> Sound(c, m[k].bucket, at))
    requires !AllowStep(c, m, k, at).0.allowed
    ensures var (d, m') := AllowStep(c, m, k, at);
      Waiting(c, m', k, at + d.retryAfter) && m'[k].lastSeen == at
  {
    var (d, m') := AllowStep(c, m, k, at);
    FreshIsFull(c, at);
    var b := if k in m then m[k].bucket else Fresh(c);
    TakeMeaning(c, b, at);
    AccruedMonotone(c.rps, 0.0, at - b.last);
    assert Level(c, b, at) >= 0.0;
    if d.retryAfter > c.ttl { AccruedStrict(c.rps, c.ttl, d.retryAfter); }
    assert at + d.retryAfter - at == d.retryAfter;
    hide Take, Level, Accrued;
  }

  /** From any reachable state: a call made before an earlier denial's RetryAfter has passed is denied. */
  lemma {:induction false} TightFrom(c: Config, m: Clients, es: seq<Event>, k: string, now: real, i: nat, j: nat)
    requires Valid(c) && c.burst >= 1 && TokenPerTTL(c) && AllSound(c, m, now) && 0.0 <= now && Timed(es, now)
    requires i < j < |CallTimes(es, k)|
    ensures var ds := DecisionsFor(c, m, es, k);
      |ds| == |CallTimes(es, k)| &&
      (!ds[i].allowed && CallTimes(es, k)[j] < CallTimes(es, k)[i] + ds[i].retryAfter ==> !ds[j].allowed)
    decreases es
  {
    hide Take, Level, AllowStep, EvictStep, Sound, Accrued, TokenPerTTL;
    var e, rest := es[0], es[1..];
    var m' := Apply(c, m, e);
    ReachableSound(c, m, [e], now);
    assert [e][1..] == [] && Final(c, m, [e]) == m';
    DecisionsLength(c, m, es, k);
    if Calls(e, k) {
      assert CallTimes(es, k) == [e.at] + CallTimes(rest, k);
      if i > 0 {
        TightFrom(c, m', rest, k, e.at, i - 1, j - 1);
      } else {
        var d := AllowStep(c, m, k, e.at).0;
        if !d.allowed && CallTimes(rest, k)[j - 1] < e.at + d.retryAfter {
          SoundLater(c, m, k, now, e.at);
          DenialWaits(c, m, k, e.at);
          DeniedUntil(c, m', rest, k, e.at + d.retryAfter, j - 1);
        }
      }
    } else {
      TightFrom(c, m', rest, k, e.at, i, j);
    }
  }

  lemma SoundLater(c: Config, m: Clients, k: string, now: real, later: real)
    requires AllSound(c, m, now) && now <= later
    ensures k in m ==> Sound(c, m[k].bucket, later)
  {
  }

  lemma {:induction false} DecisionsLength(c: Config, m: Clients, es: seq<Event>, k: string)
    requires Valid(c)
    ensures |DecisionsFor(c, m, es, k)| == |CallTimes(es, k)|
    decreases es
  {
    hide Take, AllowStep, EvictStep;
    if es != [] { DecisionsLength(c, Apply(c, m, es[0]), es[1..], k); }
  }

  /** In this run the i-th denial's RetryAfter is honoured by the j-th call. */
  ghost predicate TightAt(c: Config, es: seq<Event>, k: string, i: nat, j: nat)
    requires Valid(c)
  {
    var ds, ts := DecisionsFor(c, map[], es, k), CallTimes(es, k);
    i < j < |ts| && j < |ds| && !ds[i].allowed && ts[j] < ts[i] + ds[i].retryAfter ==> !ds[j].allowed
  }

  /** Spend the burst, be denied, fall idle before the next token, call again. */
  function Impatient(c: Config, k: string, t: real): seq<Event>
    requires c.burst >= 0
  {
    Burst(k, 0.0, c.burst) + ([Call(k, 0.0)] + ([Tick(t)] + ([Call(k, t)] + [])))
  }

  lemma ImpatientTail(c: Config, m: Clients, k: string, t: real)
    requires Valid(c) && c.burst >= 1 && c.ttl < t && Accrued(c.rps, t) < 1.0
    requires m == map[k := Entry(Bucket(0.0, 0.0), 0.0)]
    ensures var ds := DecisionsFor(c, m, [Call(k, 0.0)] + ([Tick(t)] + ([Call(k, t)] + [])), k);
      |ds| == 2 && !ds[0].allowed && t < ds[0].retryAfter && ds[1] == ALLOWED
  {
    var b := Bucket(0.0, 0.0);
    var (d, m') := AllowStep(c, m, k, 0.0);
    TakeMeaning(c, b, 0.0);
    LevelNow(c, b);
    if d.retryAfter <= t { AccruedMonotone(c.rps, d.retryAfter, t); }
    assert m' == map[k := Entry(b, 0.0)];
    assert EvictStep(c, m', t) == map[];
    OneAllowed(c, map[], k, t);
    hide Take, Level, AllowStep, EvictStep, Accrued;
    var last: seq<Event> := [Call(k, t)] + [];
    var mid := [Tick(t)] + last;
    assert ([Call(k, 0.0)] + mid)[1..] == mid && mid[1..] == last && last[1..] == [];
    var none: Clients := map[];
    assert DecisionsFor(c, none, last, k) == [ALLOWED];
    assert DecisionsFor(c, m', mid, k) == [ALLOWED];
    assert DecisionsFor(c, m, [Call(k, 0.0)] + mid, k) == [d] + [ALLOWED];
  }

  lemma ImpatientTimes(k: string, t: real)
    requires 0.0 <= t
    ensures var tail := [Call(k, 0.0)] + ([Tick(t)] + ([Call(k, t)] + []));
      Timed(tail, 0.0) && CallTimes(tail, k) == [0.0] + [t]
  {
    var none: seq<Event> := [];
    var last := [Call(k, t)] + none;
    var mid := [Tick(t)] + last;
    var tail := [Call(k, 0.0)] + mid;
    assert last[1..] == none;
    assert CallTimes(none, k) == [] && CallTimes(last, k) == [t] + CallTimes(none, k) && Timed(last, t);
    assert mid[1..] == last;
    assert Timed(mid, 0.0) && CallTimes(mid, k) == CallTimes(last, k);
    assert tail[1..] == mid;
  }

  lemma ImpatientIsServed(c: Config, k: string) returns (es: seq<Event>)
    requires Valid(c) && c.burst >= 1 && !TokenPerTTL(c)
    ensures Timed(es, 0.0) && !TightAt(c, es, k, c.burst, c.burst + 1)
  {
    var n, t := c.burst, (c.ttl + 1.0 / c.rps) / 2.0;
    AccruedOver(c.rps, 1.0);
    if 1.0 / c.rps <= c.ttl { AccruedMonotone(c.rps, 1.0 / c.rps, c.ttl); }
    assert c.ttl < t < 1.0 / c.rps;
    assert Accrued(c.rps, t) < 1.0;
    hide Accrued;
    es := Impatient(c, k, t);
    var tail := [Call(k, 0.0)] + ([Tick(t)] + ([Call(k, t)] + []));
    ImpatientTimes(k, t);
    hide Timed, CallTimes;
    BurstTimed(k, 0.0, n, tail, 0.0);
    BurstTimes(k, 0.0, n, tail);
    RepeatAt(0.0, n);
    RepeatAt(ALLOWED, n);
    var m := BurstAllowed(c, map[], k, 0.0, n, tail);
    assert m == map[k := Entry(Bucket(0.0, 0.0), 0.0)];
    ImpatientTail(c, m, k, t);
    hide DecisionsFor, Burst;
    var ds, ts := DecisionsFor(c, map[], es, k), CallTimes(es, k);
    assert ds[n] == DecisionsFor(c, m, tail, k)[0] && ds[n + 1] == DecisionsFor(c, m, tail, k)[1];
    assert ts[n] == 0.0 && ts[n + 1] == t;
  }

  lemma {:induction false} NoBurstDenies(c: Config, m: Clients, es: seq<Event>, k: string)
    requires Valid(c) && c.burst < 1
    ensures forall d :: d in DecisionsFor(c, m, es, k) ==> !d.allowed
    decreases es
  {
    if es != [] {
      assert !AllowStep(c, m, k, es[0].at).0.allowed;
      hide Take, AllowStep, EvictStep;
      NoBurstDenies(c, Apply(c, m, es[0]), es[1..], k);
    }
  }

  /** Retry-After is tight, so the advertised wait is the shortest honest one, in every run exactly when
      there is no burst or one idle TTL refills one token: a shorter TTL forgets the denial before the
      wait is over. */
  lemma RetryAfterIsTightExactly(c: Config, k: string)
    requires Valid(c)
    ensures (forall es, i: nat, j: nat :: Timed(es, 0.0) ==> TightAt(c, es, k, i, j))
      <==> c.burst < 1 || c.rps * c.ttl >= 1.0
  {
    hide Level, Take, AllowStep, EvictStep;
    if c.burst < 1 {
      forall es, i: nat, j: nat | Timed(es, 0.0) ensures TightAt(c, es, k, i, j) {
        NoBurstDenies(c, map[], es, k);
        var ds := DecisionsFor(c, map[], es, k);
        assert j < |ds| ==> ds[j] in ds;
      }
    } else if TokenPerTTL(c) {
      forall es, i: nat, j: nat | Timed(es, 0.0) ensures TightAt(c, es, k, i, j) {
        if i < j < |CallTimes(es, k)| { TightFrom(c, map[], es, k, 0.0, i, j); }
      }
    } else {
      var es := ImpatientIsServed(c, k);
    }
  }

  // ----- denied calls are free -----

  lemma {:induction false} ShadowsFinal(c: Config, m: Clients, es: seq<Event>, k: string, b: Bucket, now: real)
      returns (b': Bucket)
    requires Valid(c) && Refills(c) && c.burst >= 1 && Shadows(c, m, k, b, now) && Timed(es, now)
    ensures Shadows(c, Final(c, m, es), k, b', EndTime(es, now))
    decreases es
  {
    hide Level, Take, Shadows, AllowStep, EvictStep, Refills;
    b' := b;
    if es != [] {
      var e := es[0];
      if Calls(e, k) {
        ShadowsOwnCall(c, m, k, b, now, e.at);
        b' := Take(c, b, e.at).1;
      } else {
        ShadowsOther(c, m, k, b, now, e);
      }
      b' := ShadowsFinal(c, Apply(c, m, e), es[1..], k, b', e.at);
    }
  }

  /** Two buckets at the same level make the same decisions ever after. */
  lemma SameLevelSameFuture(c: Config, b: Bucket, b': Bucket, now: real, times: seq<real>)
    requires Valid(c) && c.burst >= 1 && b.last <= now && b'.last <= now && From(times, now)
    requires Level(c, b, now) == Level(c, b', now)
    ensures Solo(c, b, times) == Solo(c, b', times)
  {
    if times != [] {
      var t := times[0];
      LevelRebased(c, b, now, t);
      LevelRebased(c, b', now, t);
      TakeByLevel(c, b, b', t);
    }
    hide Level, Take;
  }

  /** A run's later decisions for key k do not depend on whether the call at t was made. */
  predicate FreeCall(c: Config, pre: seq<Event>, k: string, t: real, post: seq<Event>)
    requires Valid(c)
  {
    var m := Final(c, map[], pre);
    DecisionsFor(c, m, post, k) == DecisionsFor(c, Apply(c, m, Call(k, t)), post, k)
  }

  predicate DeniedAt(c: Config, pre: seq<Event>, k: string, t: real, post: seq<Event>)
    requires Valid(c)
  {
    && Timed(pre, 0.0) && EndTime(pre, 0.0) <= t && Timed(post, t)
    && !AllowStep(c, Final(c, map[], pre), k, t).0.allowed
  }

  lemma DeniedCallIsFree(c: Config, pre: seq<Event>, k: string, t: real, post: seq<Event>)
    requires Valid(c) && c.burst >= 1 && Refills(c) && DeniedAt(c, pre, k, t, post)
    ensures FreeCall(c, pre, k, t, post)
  {
    var m := Final(c, map[], pre);
    var end := EndTime(pre, 0.0);
    FreshIsFull(c, 0.0);
    var b := ShadowsFinal(c, map[], pre, k, Fresh(c), 0.0);
    ShadowsOwnCall(c, m, k, b, end, t);
    var b' := Take(c, b, t).1;
    TakeMeaning(c, b, t);
    LevelNow(c, b');
    LevelGrows(c, b, end, t);
    hide Level, Take, AllowStep, EvictStep, Refills;
    assert Shadows(c, m, k, b, t);
    CallTimesFrom(post, k, t);
    ShadowsRun(c, m, post, k, b, t);
    ShadowsRun(c, Apply(c, m, Call(k, t)), post, k, b', t);
    SameLevelSameFuture(c, b, b', t, CallTimes(post, k));
  }

  /** n calls at one instant are all allowed only if the key holds n tokens. */
  lemma {:induction false} AllAllowedNeeds(c: Config, m: Clients, k: string, t: real, n: nat)
    requires Valid(c) && c.burst >= 1 && 0.0 <= t && k in m && Sound(c, m[k].bucket, t)
    requires DecisionsFor(c, m, Burst(k, t, n), k) == Repeat(ALLOWED, n)
    ensures Holding(c, m, k, t) >= n as real
    decreases n
  {
    AccruedMonotone(c.rps, 0.0, t - m[k].bucket.last);
    AccruedAdds(c.rps, 0.0, 0.0);
    if n > 0 {
      var m' := AllowStep(c, m, k, t).1;
      TakeMeaning(c, m[k].bucket, t);
      LevelNow(c, Take(c, m[k].bucket, t).1);
      assert Burst(k, t, n)[1..] == Burst(k, t, n - 1);
      assert DecisionsFor(c, m, Burst(k, t, n), k)[0] == AllowStep(c, m, k, t).0;
      assert DecisionsFor(c, m, Burst(k, t, n), k)[1..] == DecisionsFor(c, m', Burst(k, t, n - 1), k);
      assert Repeat(ALLOWED, n)[1..] == Repeat(ALLOWED, n - 1);
      hide Take, Level, Accrued;
      AllAllowedNeeds(c, m', k, t, n - 1);
    }
  }

  /** An instant t at which an empty bucket still denies, and from which one TTL does not fill it. */
  lemma DeniedTooLate(c: Config) returns (t: real)
    requires Valid(c) && c.burst >= 1 && !Refills(c)
    ensures 0.0 < t && Accrued(c.rps, t) <= 0.5 && Accrued(c.rps, c.ttl + t) < c.burst as real
    ensures Accrued(c.rps, c.ttl + t) == Accrued(c.rps, t) + Accrued(c.rps, c.ttl)
  {
    JustIdleMeaning(c);
    AccruedOver(c.rps, 0.5);
    var half := 0.5 / c.rps;
    t := Min(JustIdle(c) - c.ttl, half);
    AccruedMonotone(c.rps, t, half);
    AccruedMonotone(c.rps, c.ttl + t, JustIdle(c));
    AccruedAdds(c.rps, t, c.ttl);
    hide JustIdle, Accrued, Refills;
    assert t + c.ttl == c.ttl + t;
  }

  /** A denied call just before the bucket falls idle keeps its debt alive. */
  lemma {:induction false} DeniedCallDelaysEviction(c: Config, k: string)
      returns (pre: seq<Event>, t: real, post: seq<Event>)
    requires Valid(c) && c.burst >= 1 && !Refills(c)
    ensures DeniedAt(c, pre, k, t, post) && !FreeCall(c, pre, k, t, post)
  {
    hide Accrued, Refills;
    t := DeniedTooLate(c);
    var u := c.ttl + t;
    assert u - t == c.ttl;
    var n := c.burst;
    pre := Burst(k, 0.0, n);
    var again := Burst(k, u, n) + [];
    post := [Tick(u)] + again;
    BurstTimed(k, 0.0, n, [], 0.0);
    BurstTimed(k, u, n, [], u);
    assert pre + [] == pre && again == Burst(k, u, n) && post[1..] == again;
    BurstEnds(k, 0.0, n);

    // the state after the first burst, without and with the denied call
    var spent := map[k := Entry(Bucket(0.0, 0.0), 0.0)];
    BurstFinal(c, map[], k, 0.0, n);
    assert Final(c, map[], pre) == spent;
    var probed := AllowStep(c, spent, k, t).1;
    TakeMeaning(c, Bucket(0.0, 0.0), t);
    assert Level(c, Bucket(0.0, 0.0), t) == Accrued(c.rps, t);
    assert probed == map[k := Entry(Bucket(Accrued(c.rps, t), t), t)];
    assert EvictStep(c, spent, u) == map[];
    assert EvictStep(c, probed, u) == probed;

    // forgotten debt: all allowed; remembered debt: not all
    var m' := BurstAllowed(c, map[], k, u, n, []);
    assert DecisionsFor(c, m', [], k) == [];
    assert DecisionsFor(c, spent, post, k) == Repeat(ALLOWED, n) + [] == Repeat(ALLOWED, n);
    assert Holding(c, probed, k, u) == Accrued(c.rps, u);
    if DecisionsFor(c, probed, post, k) == Repeat(ALLOWED, n) {
      AllAllowedNeeds(c, probed, k, u, n);
      assert false;
    }
  }

  lemma {:induction false} BurstEnds(k: string, t: real, n: nat)
    ensures |Burst(k, t, n)| == n && EndTime(Burst(k, t, n), t) == t
  {
    if n > 0 { BurstEnds(k, t, n - 1); }
  }

  lemma {:induction false} BurstFinal(c: Config, m: Clients, k: string, t: real, n: nat)
    requires Valid(c) && c.burst >= 1 && 0.0 <= t && (k in m ==> Sound(c, m[k].bucket, t))
    requires n as real <= Holding(c, m, k, t)
    ensures n == 0 ==> Final(c, m, Burst(k, t, n)) == m
    ensures n > 0 ==> Final(c, m, Burst(k, t, n)) == m[k := Entry(Bucket(Holding(c, m, k, t) - n as real, t), t)]
    decreases n
  {
    hide Level, Take, AllowStep, Sound, Valid;
    if n > 0 {
      OneAllowed(c, m, k, t);
      assert Burst(k, t, n)[1..] == Burst(k, t, n - 1);
      BurstFinal(c, AllowStep(c, m, k, t).1, k, t, n - 1);
    }
  }

  lemma NoBurstIsFree(c: Config, pre: seq<Event>, k: string, t: real, post: seq<Event>)
    requires Valid(c) && c.burst < 1
    ensures FreeCall(c, pre, k, t, post)
  {
    var m := Final(c, map[], pre);
    hide Take, AllowStep, EvictStep, DecisionsFor, Final;
    NoBurstNoTokens(c, m, post, k, Fresh(c));
    NoBurstNoTokens(c, Apply(c, m, Call(k, t)), post, k, Fresh(c));
  }

  /** Denied calls cost the client nothing in any run, exactly when an idle TTL refills the bucket. */
  lemma DeniedCallsAreFreeExactly(c: Config, k: string)
    requires Valid(c)
    ensures (forall pre, t, post :: DeniedAt(c, pre, k, t, post) ==> FreeCall(c, pre, k, t, post))
      <==> c.rps * c.ttl >= c.burst as real
  {
    hide Level, Take, AllowStep, EvictStep, DeniedAt, FreeCall;
    if Refills(c) {
      forall pre, t, post | DeniedAt(c, pre, k, t, post)
        ensures FreeCall(c, pre, k, t, post)
      {
        if c.burst < 1 { NoBurstIsFree(c, pre, k, t, post); } else { DeniedCallIsFree(c, pre, k, t, post); }
      }
    } else {
      assert c.burst >= 1 by { AccruedMonotone(c.rps, 0.0, c.ttl); AccruedAdds(c.rps, 0.0, 0.0); }
      var pre, t, post := DeniedCallDelaysEviction(c, k);
    }
  }

  // ----- the middleware -----

  /** What the rate-limit middleware does with a request. */
  datatype Verdict = Next | TooManyRequests(retryAfter: Option<int>)

  /** The verdict on a request and the map it leaves behind. */
  function LimitSpec(c: Config, m: Clients, key: Result<string, string>, now: real, unavailable: bool): (Verdict, Clients)
    requires Valid(c)
  {
    if key.Err? || unavailable then (Next, m)
    else
      var (d, m') := AllowStep(c, m, key.value, now);
      if d.allowed then (Next, m')
      else (TooManyRequests(if d.retryAfter > 0.0 then Some(CeilSeconds(d.retryAfter)) else None), m')
  }

  /** Fails open when the key cannot be derived or the limiter is unavailable (the in-process one never
      is, a shared backend may be); otherwise the limiter decides. */
  method Limit(limiter: InMemory, key: Result<string, string>, now: real, unavailable: bool) returns (v: Verdict)
    requires Valid(limiter.cfg)
    modifies limiter`clients
    ensures (v, limiter.clients) == LimitSpec(limiter.cfg, old(limiter.clients), key, now, unavailable)
    ensures key.Err? || unavailable ==> v == Next && limiter.clients == old(limiter.clients)
    ensures key.Ok? && !unavailable ==>
      var (d, m) := AllowStep(limiter.cfg, old(limiter.clients), key.value, now);
      limiter.clients == m
      && (v == Next <==> d.allowed)
      && (v.TooManyRequests? && v.retryAfter.Some? <==> !d.allowed && d.retryAfter > 0.0)
      && (v.TooManyRequests? && v.retryAfter.Some? ==>
            v.retryAfter.value >= 1 && d.retryAfter <= v.retryAfter.value as real < d.retryAfter + 1.0)
  {
    if key.Err? || unavailable {
      return Next;
    }
    var d := limiter.Allow(key.value, now);
    if d.allowed {
      return Next;
    }
    if d.retryAfter > 0.0 {
      v := TooManyRequests(Some(CeilSeconds(d.retryAfter)));
    } else {
      v := TooManyRequests(None);
    }
  }
}
