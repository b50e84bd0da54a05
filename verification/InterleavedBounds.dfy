/** The limiter's bounds with Allow's two clock readings kept apart: how many reservations a window can
    allow, and when the reported Retry-After is the shortest honest wait. */
module InterleavedBounds {
  import opened TokenBucket
  import opened LimiterInterleaving
  import opened InterleavedTransparency

  /** What every reachable state satisfies. */
  predicate Sane(c: Config, slack: real, s: State) {
    Inv(c, slack, s) && Separate(s) && 0.0 <= s.now
  }

  lemma StepKeepsSane(c: Config, slack: real, s: State, step: Step)
    requires Valid(c) && 0.0 <= slack <= c.ttl && Sane(c, slack, s) && Enabled(slack, s, step)
    ensures Sane(c, slack, Apply(c, slack, s, step))
  {
    hide Inv, Separate;
    StepKeepsInv(c, slack, s, step);
    StepKeepsSeparate(c, slack, s, step);
  }

  /** Key k's bucket as the map holds it. */
  function Mine(c: Config, s: State, k: string): Bucket
    requires k in s.clients
  {
    BucketAt(c, s, s.clients[k].bucket)
  }

  lemma OthersKeepMine(c: Config, slack: real, s: State, step: Step, k: string)
    requires Valid(c) && Sane(c, slack, s) && Enabled(slack, s, step) && k in s.clients
    requires step.Reserve? ==> s.pending[step.request].key != k
    ensures var s' := Apply(c, slack, s, step);
      k in s'.clients ==>
        Mine(c, s', k) == Mine(c, s, k) && s.clients[k].lastSeen <= s'.clients[k].lastSeen
  {
    hide Take;
    if step.Reserve? {
      var p := s.pending[step.request];
      assert s.clients[p.key].bucket == p.bucket;
    }
  }

  lemma OwnReserve(c: Config, slack: real, s: State, request: nat)
    requires Valid(c) && Sane(c, slack, s) && request in s.pending
    ensures var k, s' := s.pending[request].key, ReserveStep(c, s, request);
      && k in s.clients && s'.now == s.now && s'.clients == s.clients
      && (Take(c, Mine(c, s, k), s.now).1 == Mine(c, s', k))
      && s'.log == s.log + [Outcome(k, s.now, Take(c, Mine(c, s, k), s.now).0)]
      && s.now <= s.clients[k].lastSeen + slack
  {
    hide Take;
  }

  // ----- rate bound -----

  predicate Counts(o: Outcome, k: string, t0: real, t1: real) {
    o.key == k && t0 <= o.at <= t1 && o.decision.allowed
  }

  /** How many of key k's reservations in the window [t0, t1] were allowed. */
  function AllowedIn(log: seq<Outcome>, k: string, t0: real, t1: real): nat {
    if log == [] then 0
    else
      var n := |log| - 1;
      AllowedIn(log[..n], k, t0, t1) + if Counts(log[n], k, t0, t1) then 1 else 0
  }

  lemma AllowedInGrows(log: seq<Outcome>, o: Outcome, k: string, t0: real, t1: real)
    ensures AllowedIn(log + [o], k, t0, t1) == AllowedIn(log, k, t0, t1) + if Counts(o, k, t0, t1) then 1 else 0
  {
    assert (log + [o])[..|log|] == log;
  }

  /** A rate at which the bucket's refill and its evictions together can feed the key. */
  predicate Feeds(c: Config, slack: real, rate: real) {
    rate >= c.rps && Accrued(rate, c.ttl - slack) >= c.burst as real
  }

  /** What key k has spent in the window since t0, against what it holds: a full bucket, or one that
      remembers what was spent. */
  predicate Budget(c: Config, slack: real, s: State, k: string, rate: real, t0: real, spent: nat) {
    && (spent > 0 ==> t0 <= s.now)
    && (k !in s.clients && spent > 0 ==> spent as real <= Accrued(rate, s.now - t0))
    && (k in s.clients ==>
          var b := Mine(c, s, k);
          && Sound(c, b, s.now) && b.last <= s.clients[k].lastSeen + slack
          && (spent > 0 ==>
                || (Level(c, b, s.now) == c.burst as real && spent as real <= Accrued(rate, s.now - t0))
                || (t0 <= b.last && spent as real + b.tokens <= c.burst as real + Accrued(rate, b.last - t0))))
  }

  lemma BudgetCovers(c: Config, slack: real, s: State, k: string, rate: real, t0: real, spent: nat)
    requires Valid(c) && c.burst >= 1 && rate >= c.rps && k in s.clients && Budget(c, slack, s, k, rate, t0, spent)
    requires t0 <= s.now
    ensures spent as real + Level(c, Mine(c, s, k), s.now) <= c.burst as real + Accrued(rate, s.now - t0)
  {
    var b := Mine(c, s, k);
    assert Level(c, b, s.now) <= c.burst as real && Level(c, b, s.now) <= b.tokens + Accrued(c.rps, s.now - b.last);
    AccruedFaster(c.rps, rate, s.now - b.last);
    AccruedAdds(rate, b.last - t0, s.now - b.last);
    assert (b.last - t0) + (s.now - b.last) == s.now - t0;
    AccruedAdds(rate, 0.0, 0.0);
    AccruedMonotone(rate, 0.0, s.now - t0);
    hide Level, Accrued, Mine;
  }

  lemma BudgetWait(c: Config, slack: real, s: State, k: string, rate: real, t0: real, spent: nat, until: real)
    requires Valid(c) && rate >= c.rps && Budget(c, slack, s, k, rate, t0, spent) && s.now <= until
    ensures Budget(c, slack, s.(now := until), k, rate, t0, spent)
  {
    if spent > 0 { AccruedMonotone(rate, s.now - t0, until - t0); }
    if k in s.clients {
      assert Mine(c, s.(now := until), k) == Mine(c, s, k);
      LevelGrows(c, Mine(c, s, k), s.now, until);
      assert Level(c, Mine(c, s, k), until) <= c.burst as real;
    }
    hide Level, Accrued, Mine;
  }

  lemma BudgetLookup(c: Config, slack: real, s: State, k: string, rate: real, t0: real, spent: nat, request: nat, key: string)
    requires Valid(c) && c.burst >= 1 && 0.0 <= slack && Sane(c, slack, s) && request !in s.pending
    requires Budget(c, slack, s, k, rate, t0, spent)
    ensures Budget(c, slack, LookupStep(c, s, request, key), k, rate, t0, spent)
  {
    FreshIsFull(c, s.now);
    var s' := LookupStep(c, s, request, key);
    if k in s.clients { OthersKeepMine(c, slack, s, Lookup(request, key), k); }
    hide Level, Accrued, Inv, Separate;
    if k !in s.clients && k in s'.clients { assert Mine(c, s', k) == Fresh(c); }
    hide Mine;
  }

  lemma BudgetOwnReserve(c: Config, slack: real, s: State, rate: real, t0: real, t1: real, spent: nat, request: nat)
    requires Valid(c) && c.burst >= 1 && rate >= c.rps && Sane(c, slack, s) && request in s.pending && s.now <= t1
    requires Budget(c, slack, s, s.pending[request].key, rate, t0, spent)
    ensures var k, s' := s.pending[request].key, ReserveStep(c, s, request);
      && k in s.clients
      && Budget(c, slack, s', k, rate, t0,
                if Counts(Outcome(k, s.now, Take(c, Mine(c, s, k), s.now).0), k, t0, t1) then spent + 1 else spent)
  {
    var k, s' := s.pending[request].key, ReserveStep(c, s, request);
    OwnReserve(c, slack, s, request);
    TakeMeaning(c, Mine(c, s, k), s.now);
    if t0 <= s.now { BudgetCovers(c, slack, s, k, rate, t0, spent); }
    hide Take, Level, Accrued, Mine, Sane, ReserveStep;
  }

  lemma BudgetSweep(c: Config, slack: real, s: State, k: string, rate: real, t0: real, spent: nat)
    requires Valid(c) && c.burst >= 1 && Feeds(c, slack, rate) && Sane(c, slack, s) && s.cutoff.Some?
    requires Budget(c, slack, s, k, rate, t0, spent)
    ensures Budget(c, slack, Apply(c, slack, s, Sweep), k, rate, t0, spent)
  {
    var s' := Apply(c, slack, s, Sweep);
    if k in s.clients {
      OthersKeepMine(c, slack, s, Sweep, k);
      var last := Mine(c, s, k).last;
      if k !in s'.clients && spent > 0 {
        AccruedMonotone(rate, c.ttl - slack, s.now - last);
        AccruedAdds(rate, s.now - last, last - t0);
        assert (s.now - last) + (last - t0) == s.now - t0;
      }
    }
    hide Level, Accrued, Mine;
  }

  /** The window's count is within its bound, and while the window lasts the budget explains it. */
  predicate Bounded(c: Config, slack: real, s: State, k: string, rate: real, t0: real, t1: real) {
    var spent := AllowedIn(s.log, k, t0, t1);
    && (s.now <= t1 ==> Budget(c, slack, s, k, rate, t0, spent))
    && spent as real <= c.burst as real + Accrued(rate, t1 - t0)
  }

  lemma ReserveStaysBounded(c: Config, slack: real, s: State, k: string, rate: real, t0: real, t1: real, request: nat)
    requires Valid(c) && c.burst >= 1 && rate >= c.rps && t0 <= t1 && Sane(c, slack, s) && request in s.pending
    requires Bounded(c, slack, s, k, rate, t0, t1)
    ensures Bounded(c, slack, ReserveStep(c, s, request), k, rate, t0, t1)
  {
    var key, s' := s.pending[request].key, ReserveStep(c, s, request);
    OwnReserve(c, slack, s, request);
    var o := s'.log[|s.log|];
    AllowedInGrows(s.log, o, k, t0, t1);
    var spent := AllowedIn(s.log, k, t0, t1);
    if key != k {
      if k in s.clients { OthersKeepMine(c, slack, s, Step.Reserve(request), k); }
      hide Take, Level, Accrued, Mine, Sane, AllowedIn;
    } else if s.now <= t1 {
      BudgetOwnReserve(c, slack, s, rate, t0, t1, spent, request);
      if t0 <= s.now {
        BudgetCovers(c, slack, s, k, rate, t0, spent);
        TakeMeaning(c, Mine(c, s, k), s.now);
        AccruedMonotone(rate, s.now - t0, t1 - t0);
      }
      hide Take, Level, Accrued, Mine, Sane, AllowedIn, Budget, ReserveStep;
    }
  }

  lemma StepStaysBounded(c: Config, slack: real, s: State, k: string, rate: real, t0: real, t1: real, step: Step)
    requires Valid(c) && c.burst >= 1 && 0.0 <= slack && Feeds(c, slack, rate) && t0 <= t1 && Sane(c, slack, s)
    requires Enabled(slack, s, step) && Bounded(c, slack, s, k, rate, t0, t1)
    ensures Bounded(c, slack, Apply(c, slack, s, step), k, rate, t0, t1)
  {
    hide Level, Accrued, Take, Inv, Separate, AllowedIn, BucketAt, ReserveStep, LookupStep;
    var spent := AllowedIn(s.log, k, t0, t1);
    match step
    case Reserve(request) => ReserveStaysBounded(c, slack, s, k, rate, t0, t1, request);
    case Wait(until) => if until <= t1 { BudgetWait(c, slack, s, k, rate, t0, spent, until); }
    case Lookup(request, key) =>
      assert LookupStep(c, s, request, key).log == s.log && LookupStep(c, s, request, key).now == s.now by { LookupKeepsLog(c, s, request, key); }
      if s.now <= t1 { BudgetLookup(c, slack, s, k, rate, t0, spent, request, key); }
    case ReadCutoff =>
      if k in s.clients { OthersKeepMine(c, slack, s, ReadCutoff, k); }
    case Sweep => if s.now <= t1 { BudgetSweep(c, slack, s, k, rate, t0, spent); }
  }

  lemma LookupKeepsLog(c: Config, s: State, request: nat, key: string)
    ensures LookupStep(c, s, request, key).log == s.log && LookupStep(c, s, request, key).now == s.now
  {
  }

  lemma {:induction false} RunStaysBounded(c: Config, slack: real, s: State, steps: seq<Step>, k: string,
      rate: real, t0: real, t1: real)
    requires Valid(c) && c.burst >= 1 && 0.0 <= slack <= c.ttl && Feeds(c, slack, rate) && t0 <= t1
    requires Sane(c, slack, s) && Bounded(c, slack, s, k, rate, t0, t1) && Runs(c, slack, s, steps)
    ensures Bounded(c, slack, Final(c, slack, s, steps), k, rate, t0, t1)
    decreases steps
  {
    hide Sane, Bounded, Apply, Enabled, Feeds;
    if steps != [] {
      StepKeepsSane(c, slack, s, steps[0]);
      StepStaysBounded(c, slack, s, k, rate, t0, t1, steps[0]);
      RunStaysBounded(c, slack, Apply(c, slack, s, steps[0]), steps[1..], k, rate, t0, t1);
    }
  }

  /** The larger of the refill rate and one burst per what the slack leaves of an idle TTL. */
  function EffectiveRate(c: Config, slack: real): real
    requires slack < c.ttl
  {
    var perTTL := c.burst as real / (c.ttl - slack);
    if c.rps >= perTTL then c.rps else perTTL
  }

  lemma EffectiveRateFeeds(c: Config, slack: real)
    requires Valid(c) && slack < c.ttl
    ensures Feeds(c, slack, EffectiveRate(c, slack))
  {
    var left := c.ttl - slack;
    AccruedOver(left, c.burst as real);
    AccruedMonotone(left, c.burst as real / left, EffectiveRate(c, slack));
  }

  lemma EffectiveRateMeaning(c: Config, slack: real)
    requires Valid(c) && slack < c.ttl
    ensures EffectiveRate(c, slack) ==
      if c.rps * (c.ttl - slack) >= c.burst as real then c.rps else c.burst as real / (c.ttl - slack)
  {
    var left := c.ttl - slack;
    AccruedOver(left, c.burst as real);
    if c.rps < c.burst as real / left {
      AccruedStrict(left, c.rps, c.burst as real / left);
    } else {
      AccruedMonotone(left, c.burst as real / left, c.rps);
    }
  }

  lemma {:induction false} NoBurstAllowsNone(c: Config, slack: real, s: State, steps: seq<Step>, k: string, t0: real, t1: real)
    requires Valid(c) && c.burst < 1 && Runs(c, slack, s, steps)
    ensures AllowedIn(Final(c, slack, s, steps).log, k, t0, t1) == AllowedIn(s.log, k, t0, t1)
    decreases steps
  {
    if steps != [] {
      var s' := Apply(c, slack, s, steps[0]);
      if steps[0].Reserve? { AllowedInGrows(s.log, s'.log[|s.log|], k, t0, t1); }
      hide Apply, Enabled, AllowedIn;
      NoBurstAllowsNone(c, slack, s', steps[1..], k, t0, t1);
    }
  }

  /** In every interleaving and every window a key is allowed at most one burst plus the window's length
      at the effective rate, and with no burst nothing. */
  lemma InterleavedRateBound(c: Config, slack: real, steps: seq<Step>, k: string, t0: real, t1: real)
    requires Valid(c) && 0.0 <= slack < c.ttl && t0 <= t1 && Runs(c, slack, INITIAL, steps)
    ensures var n := AllowedIn(Final(c, slack, INITIAL, steps).log, k, t0, t1);
      if c.burst < 1 then n == 0
      else
        var left := c.ttl - slack;
        var rate := if c.rps * left >= c.burst as real then c.rps else c.burst as real / left;
        n as real <= c.burst as real + rate * (t1 - t0)
  {
    EffectiveRateMeaning(c, slack);
    if c.burst < 1 {
      NoBurstAllowsNone(c, slack, INITIAL, steps, k, t0, t1);
    } else {
      var rate := EffectiveRate(c, slack);
      EffectiveRateFeeds(c, slack);
      AccruedAdds(rate, 0.0, 0.0);
      AccruedMonotone(rate, 0.0, t1 - t0);
      hide EffectiveRate, Runs, Final;
      RunStaysBounded(c, slack, INITIAL, steps, k, rate, t0, t1);
    }
  }
}
