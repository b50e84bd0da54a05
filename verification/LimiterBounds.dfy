/** What the limiter guarantees in every run, whether or not an idle TTL refills the bucket:
    a rate bound over every window, an honest Retry-After, and a bounded map. */
module LimiterBounds {
  import opened TokenBucket
  import opened RateLimiter

  // ----- rate bound -----

  predicate InWindow(e: Event, k: string, t0: real, t1: real) {
    Calls(e, k) && t0 <= e.at <= t1
  }

  /** How many of key k's calls in the window [t0, t1] the run allows. */
  function AllowedIn(c: Config, m: Clients, es: seq<Event>, k: string, t0: real, t1: real): nat
    requires Valid(c)
    decreases es
  {
    if es == [] then 0
    else
      var later := AllowedIn(c, Apply(c, m, es[0]), es[1..], k, t0, t1);
      if InWindow(es[0], k, t0, t1) && AllowStep(c, m, k, es[0].at).0.allowed then 1 + later else later
  }

  lemma {:induction false} NoneAfterWindow(c: Config, m: Clients, es: seq<Event>, k: string, t0: real, t1: real, now: real)
    requires Valid(c) && Timed(es, now) && t1 < now
    ensures AllowedIn(c, m, es, k, t0, t1) == 0
    decreases es
  {
    hide Level, Take, AllowStep, EvictStep;
    if es != [] {
      NoneAfterWindow(c, Apply(c, m, es[0]), es[1..], k, t0, t1, es[0].at);
    }
  }

  /** A rate at which the bucket's refill and its evictions together can feed the key. */
  predicate Feeds(c: Config, rate: real) {
    rate >= c.rps && Accrued(rate, c.ttl) >= c.burst as real
  }

  /** What key k has spent in the window since t0, against what it holds. */
  predicate Budget(c: Config, m: Clients, k: string, rate: real, t0: real, now: real, spent: nat) {
    && (spent > 0 ==> t0 <= now)
    && (k in m ==>
          && m[k].bucket.last == m[k].lastSeen
          && Sound(c, m[k].bucket, now)
          && (spent > 0 ==>
                && t0 <= m[k].lastSeen
                && spent as real + m[k].bucket.tokens <= c.burst as real + Accrued(rate, m[k].lastSeen - t0)))
    && (k !in m && spent > 0 ==> spent as real <= Accrued(rate, now - t0))
  }

  lemma BudgetOwnCall(c: Config, m: Clients, k: string, rate: real, t0: real, now: real, spent: nat, at: real)
    requires Valid(c) && c.burst >= 1 && Feeds(c, rate) && Budget(c, m, k, rate, t0, now, spent) && 0.0 <= now <= at
    ensures var (d, m') := AllowStep(c, m, k, at);
      Budget(c, m', k, rate, t0, at, if t0 <= at && d.allowed then spent + 1 else spent)
  {
    FreshIsFull(c, at);
    var b := if k in m then m[k].bucket else Fresh(c);
    TakeMeaning(c, b, at);
    var level := Level(c, b, at);
    assert level <= c.burst as real && level <= b.tokens + Accrued(c.rps, if at < b.last then 0.0 else at - b.last);
    AccruedAdds(rate, 0.0, 0.0);
    hide Take, Level, Accrued, Fresh;
    if spent > 0 {
      if k in m {
        AccruedFaster(c.rps, rate, at - b.last);
        AccruedAdds(rate, b.last - t0, at - b.last);
        assert (b.last - t0) + (at - b.last) == at - t0;
      } else {
        AccruedMonotone(rate, now - t0, at - t0);
      }
      assert spent as real + level <= c.burst as real + Accrued(rate, at - t0);
    } else if t0 <= at {
      AccruedMonotone(rate, 0.0, at - t0);
    }
  }

  lemma BudgetOther(c: Config, m: Clients, k: string, rate: real, t0: real, now: real, spent: nat, e: Event)
    requires Valid(c) && c.burst >= 1 && Feeds(c, rate) && Budget(c, m, k, rate, t0, now, spent)
    requires now <= e.at && !Calls(e, k)
    ensures Budget(c, Apply(c, m, e), k, rate, t0, e.at, spent)
  {
    hide Take, Level, Accrued;
    if spent > 0 && k !in m {
      AccruedMonotone(rate, now - t0, e.at - t0);
    }
    if spent > 0 && k in m && e.Tick? && Idle(c, m[k], e.at) {
      var last := m[k].lastSeen;
      AccruedMonotone(rate, c.ttl, e.at - last);
      AccruedAdds(rate, e.at - last, last - t0);
      assert (e.at - last) + (last - t0) == e.at - t0;
    }
  }

  lemma {:induction false} BudgetRun(c: Config, m: Clients, es: seq<Event>, k: string, rate: real,
      t0: real, t1: real, now: real, spent: nat)
    requires Valid(c) && c.burst >= 1 && Feeds(c, rate) && Budget(c, m, k, rate, t0, now, spent)
    requires Timed(es, now) && 0.0 <= now && t0 <= t1 && (spent > 0 ==> now <= t1)
    ensures spent as real + AllowedIn(c, m, es, k, t0, t1) as real <= c.burst as real + Accrued(rate, t1 - t0)
    decreases es
  {
    hide Level, Take, AllowStep, EvictStep, Accrued;
    AccruedAdds(rate, 0.0, 0.0);
    AccruedMonotone(rate, 0.0, t1 - t0);
    if spent > 0 {
      AccruedMonotone(rate, now - t0, t1 - t0);
      if k in m { AccruedMonotone(rate, m[k].lastSeen - t0, t1 - t0); }
    }
    assert spent as real <= c.burst as real + Accrued(rate, t1 - t0);
    if es != [] {
      var e := es[0];
      var m' := Apply(c, m, e);
      if e.at > t1 {
        NoneAfterWindow(c, m', es[1..], k, t0, t1, e.at);
      } else if Calls(e, k) {
        BudgetOwnCall(c, m, k, rate, t0, now, spent, e.at);
        var spent' := if t0 <= e.at && AllowStep(c, m, k, e.at).0.allowed then spent + 1 else spent;
        BudgetRun(c, m', es[1..], k, rate, t0, t1, e.at, spent');
      } else {
        BudgetOther(c, m, k, rate, t0, now, spent, e);
        BudgetRun(c, m', es[1..], k, rate, t0, t1, e.at, spent);
      }
    }
  }

  /** The larger of the refill rate and one burst per idle TTL. */
  function EffectiveRate(c: Config): real
    requires Valid(c)
  {
    var perTTL := c.burst as real / c.ttl;
    if c.rps >= perTTL then c.rps else perTTL
  }

  lemma EffectiveRateFeeds(c: Config)
    requires Valid(c)
    ensures Feeds(c, EffectiveRate(c))
  {
    AccruedOver(c.ttl, c.burst as real);
    AccruedMonotone(c.ttl, c.burst as real / c.ttl, EffectiveRate(c));
  }

  lemma RateBoundAt(c: Config, es: seq<Event>, k: string, rate: real, t0: real, t1: real)
    requires Valid(c) && c.burst >= 1 && Timed(es, 0.0) && t0 <= t1 && Feeds(c, rate)
    ensures AllowedIn(c, map[], es, k, t0, t1) as real <= c.burst as real + Accrued(rate, t1 - t0)
  {
    hide Level, Take, AllowStep, EvictStep, Accrued;
    BudgetRun(c, map[], es, k, rate, t0, t1, 0.0, 0);
  }

  /** In every run and every window, a key is allowed at most one burst plus the window's length at
      the effective rate; with no side condition on the configuration. */
  lemma RateBound(c: Config, es: seq<Event>, k: string, t0: real, t1: real)
    requires Valid(c) && c.burst >= 1 && Timed(es, 0.0) && t0 <= t1
    ensures AllowedIn(c, map[], es, k, t0, t1) as real <= c.burst as real + EffectiveRate(c) * (t1 - t0)
    ensures EffectiveRate(c) == if c.rps * c.ttl >= c.burst as real then c.rps else c.burst as real / c.ttl
  {
    EffectiveRateFeeds(c);
    RateBoundAt(c, es, k, EffectiveRate(c), t0, t1);
    hide AllowedIn, Timed;
    if c.rps < c.burst as real / c.ttl {
      AccruedOver(c.ttl, c.burst as real);
      assert c.ttl * c.rps < c.ttl * (c.burst as real / c.ttl);
    }
  }

  /** A limiter with no burst never allows anything. */
  lemma {:induction false} NoBurstDeniesAll(c: Config, m: Clients, es: seq<Event>, k: string, t0: real, t1: real)
    requires Valid(c) && c.burst < 1
    ensures AllowedIn(c, m, es, k, t0, t1) == 0
    decreases es
  {
    if es != [] { NoBurstDeniesAll(c, Apply(c, m, es[0]), es[1..], k, t0, t1); }
  }

  // ----- reachable states -----

  predicate AllSound(c: Config, m: Clients, now: real) {
    forall k :: k in m ==> Sound(c, m[k].bucket, now) && m[k].bucket.last == m[k].lastSeen
  }

  function EndTime(es: seq<Event>, now: real): real {
    if es == [] then now else es[|es| - 1].at
  }

  lemma {:induction false} ReachableSound(c: Config, m: Clients, es: seq<Event>, now: real)
    requires Valid(c) && c.burst >= 1 && Timed(es, now) && 0.0 <= now && AllSound(c, m, now)
    ensures AllSound(c, Final(c, m, es), EndTime(es, now)) && now <= EndTime(es, now)
    decreases es
  {
    if es != [] {
      var e := es[0];
      assert AllSound(c, Apply(c, m, e), e.at) by {
        if e.Call? {
          FreshIsFull(c, e.at);
          TakeMeaning(c, if e.key in m then m[e.key].bucket else Fresh(c), e.at);
        }
        hide Level, Take;
      }
      hide Level, Take, AllowStep, EvictStep, Sound, AllSound;
      ReachableSound(c, Apply(c, m, e), es[1..], e.at);
    }
  }

  lemma {:induction false} CallsKeepKeys(c: Config, m: Clients, es: seq<Event>)
    requires Valid(c) && CallsOnly(es)
    ensures m.Keys <= Final(c, m, es).Keys
    decreases es
  {
    hide Take;
    if es != [] { CallsKeepKeys(c, Apply(c, m, es[0]), es[1..]); }
  }

  /** After Stop, once the janitor has exited: Allow still works, and since nothing is evicted any more a
      key keeps the one bucket it has, or gets a full one on first use, whatever the configuration. */
  lemma AfterStop(c: Config, pre: seq<Event>, post: seq<Event>, k: string)
    requires Valid(c) && Timed(pre, 0.0) && Timed(post, EndTime(pre, 0.0)) && CallsOnly(post)
    ensures var m := Final(c, map[], pre);
      && DecisionsFor(c, m, post, k) == Solo(c, if k in m then m[k].bucket else Fresh(c), CallTimes(post, k))
      && m.Keys <= Final(c, m, post).Keys
  {
    CallsKeepKeys(c, Final(c, map[], pre), post);
    hide Level, Take, AllowStep, EvictStep;
    var m := Final(c, map[], pre);
    var b := if k in m then m[k].bucket else Fresh(c);
    if c.burst < 1 {
      NoBurstNoTokens(c, m, post, k, b);
    } else {
      ReachableSound(c, map[], pre, 0.0);
      FreshIsFull(c, EndTime(pre, 0.0));
      ShadowsRun(c, m, post, k, b, EndTime(pre, 0.0));
    }
  }

  // ----- Retry-After -----

  /** Seconds rounded up to a whole number, as the Retry-After header carries them. */
  function CeilSeconds(d: real): int { -(-d).Floor }

  predicate Quiet(es: seq<Event>, k: string) {
    forall i :: 0 <= i < |es| ==> !Calls(es[i], k)
  }

  lemma {:induction false} QuietKeepsOrEvicts(c: Config, m: Clients, es: seq<Event>, k: string)
    requires Valid(c) && Quiet(es, k)
    ensures k in Final(c, m, es) ==> k in m && Final(c, m, es)[k] == m[k]
    decreases es
  {
    hide Take, Idle;
    if es != [] {
      assert !Calls(es[0], k);
      QuietKeepsOrEvicts(c, Apply(c, m, es[0]), es[1..], k);
    }
  }

  /** Once the reported wait is over, the denied key's bucket holds a token again. */
  lemma WaitRefills(c: Config, m: Clients, k: string, t: real, t': real)
    requires Valid(c) && c.burst >= 1 && (k in m ==> Sound(c, m[k].bucket, t)) && 0.0 <= t
    requires var d := AllowStep(c, m, k, t).0; !d.allowed && t' >= t + d.retryAfter
    ensures var m' := AllowStep(c, m, k, t).1;
      k in m' && Sound(c, m'[k].bucket, t) && t <= t' && Level(c, m'[k].bucket, t') >= 1.0
  {
    var d := AllowStep(c, m, k, t).0;
    FreshIsFull(c, t);
    TakeMeaning(c, if k in m then m[k].bucket else Fresh(c), t);
    AccruedMonotone(c.rps, d.retryAfter, t' - t);
    hide Take;
  }

  lemma TokenAllows(c: Config, m: Clients, k: string, t: real)
    requires Valid(c) && c.burst >= 1 && 0.0 <= t
    requires k in m ==> Sound(c, m[k].bucket, t) && Level(c, m[k].bucket, t) >= 1.0
    ensures AllowStep(c, m, k, t).0.allowed
  {
    FreshIsFull(c, t);
    TakeMeaning(c, if k in m then m[k].bucket else Fresh(c), t);
    hide Take, Level;
  }

  lemma CeilIsAbove(d: real)
    ensures CeilSeconds(d) as real >= d && (d > 0.0 ==> CeilSeconds(d) >= 1)
  {
  }

  /** A client that is denied, told to come back in s whole seconds, and does so without calling in
      between is allowed, whatever the other keys and the janitor do meanwhile. */
  lemma RetryAfterSuffices(c: Config, pre: seq<Event>, k: string, t: real, es: seq<Event>, t': real)
    requires Valid(c) && Timed(pre, 0.0) && EndTime(pre, 0.0) <= t
    requires Timed(es, t) && Quiet(es, k) && EndTime(es, t) <= t'
    requires var d := AllowStep(c, Final(c, map[], pre), k, t).0;
      !d.allowed && d.retryAfter > 0.0 && t' >= t + CeilSeconds(d.retryAfter) as real
    ensures CeilSeconds(AllowStep(c, Final(c, map[], pre), k, t).0.retryAfter) >= 1
    ensures AllowStep(c, Final(c, AllowStep(c, Final(c, map[], pre), k, t).1, es), k, t').0.allowed
  {
    var m := Final(c, map[], pre);
    var (d, m1) := AllowStep(c, m, k, t);
    assert c.burst >= 1;
    hide Level, Take, AllowStep, CeilSeconds;
    CeilIsAbove(d.retryAfter);
    ReachableSound(c, map[], pre, 0.0);
    WaitRefills(c, m, k, t, t');
    QuietKeepsOrEvicts(c, m1, es, k);
    TokenAllows(c, Final(c, m1, es), k, t');
  }

  // ----- memory bound -----

  /** The janitor ticks at least every ttl, the last time at lastTick. */
  predicate TicksEvery(c: Config, es: seq<Event>, lastTick: real) {
    es == [] ||
    (es[0].at <= lastTick + c.ttl && TicksEvery(c, es[1..], if es[0].Tick? then es[0].at else lastTick))
  }

  lemma {:induction false} EvictionBoundsMapFrom(c: Config, m: Clients, es: seq<Event>, now: real, lastTick: real)
    requires Valid(c) && Timed(es, now) && TicksEvery(c, es, lastTick) && lastTick <= now <= lastTick + c.ttl
    requires forall k :: k in m ==> m[k].lastSeen >= lastTick - c.ttl
    ensures forall k :: k in Final(c, m, es) ==> Final(c, m, es)[k].lastSeen >= EndTime(es, now) - 2.0 * c.ttl
    decreases es
  {
    hide Take;
    if es != [] {
      var e := es[0];
      EvictionBoundsMapFrom(c, Apply(c, m, e), es[1..], e.at, if e.Tick? then e.at else lastTick);
      assert EndTime(es, now) == EndTime(es[1..], e.at);
    }
  }

  /** The map never keeps a key for more than two TTLs after it was last seen. */
  lemma EvictionBoundsMap(c: Config, es: seq<Event>)
    requires Valid(c) && Timed(es, 0.0) && TicksEvery(c, es, 0.0)
    ensures forall k :: k in Final(c, map[], es) ==>
      Final(c, map[], es)[k].lastSeen >= EndTime(es, 0.0) - 2.0 * c.ttl
  {
    EvictionBoundsMapFrom(c, map[], es, 0.0, 0.0);
  }
}
