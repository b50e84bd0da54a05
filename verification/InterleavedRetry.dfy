/** Retry-After with Allow's two clock readings kept apart: when a denied client that calls again too
    soon is denied in every interleaving. */
module InterleavedRetry {
  import opened TokenBucket
  import opened LimiterInterleaving
  import opened InterleavedTransparency
  import opened InterleavedBounds
  import opened LimiterExactness

  /** When the wait an outcome asks for is over. */
  function RetryAt(o: Outcome): real { o.at + o.decision.retryAfter }

  /** A reservation of key k before an earlier denial's wait is over is denied. */
  predicate HonouredAt(log: seq<Outcome>, k: string, i: nat, j: nat) {
    i < j < |log| && log[i].key == k && log[j].key == k && !log[i].decision.allowed && log[j].at < RetryAt(log[i]) ==>
      !log[j].decision.allowed
  }

  ghost predicate Honoured(log: seq<Outcome>, k: string) {
    forall i: nat, j: nat :: HonouredAt(log, k, i, j)
  }

  /** One token accrues in what the slack leaves of an idle TTL. */
  predicate TokenWithin(c: Config, slack: real) {
    Accrued(c.rps, c.ttl - slack) >= 1.0
  }

  /** Until the deadline key k's bucket stays in the map and short of a token. */
  predicate Waits(c: Config, s: State, k: string, deadline: real) {
    s.now < deadline ==>
      && k in s.clients && Sound(c, Mine(c, s, k), s.now)
      && deadline - c.ttl <= s.clients[k].lastSeen
      && Level(c, Mine(c, s, k), s.now) + Accrued(c.rps, deadline - s.now) <= 1.0
  }

  lemma WaitingIsDenied(c: Config, s: State, k: string, deadline: real)
    requires Valid(c) && c.burst >= 1 && Waits(c, s, k, deadline) && s.now < deadline
    ensures var (d, b) := Take(c, Mine(c, s, k), s.now);
      !d.allowed && Sound(c, b, s.now) && Level(c, b, s.now) == Level(c, Mine(c, s, k), s.now)
  {
    TakeMeaning(c, Mine(c, s, k), s.now);
    LevelNow(c, Take(c, Mine(c, s, k), s.now).1);
    AccruedStrict(c.rps, 0.0, deadline - s.now);
    AccruedAdds(c.rps, 0.0, 0.0);
    hide Take, Level, Accrued, Mine;
  }

  lemma TimeKeepsWaits(c: Config, s: State, k: string, deadline: real, until: real)
    requires Valid(c) && Waits(c, s, k, deadline) && s.now <= until
    ensures Waits(c, s.(now := until), k, deadline)
  {
    if until < deadline {
      assert Mine(c, s.(now := until), k) == Mine(c, s, k);
      LevelGrows(c, Mine(c, s, k), s.now, until);
      AccruedAdds(c.rps, until - s.now, deadline - until);
      assert (until - s.now) + (deadline - until) == deadline - s.now;
      hide Level, Accrued, Mine;
    }
  }

  lemma StepKeepsWaits(c: Config, slack: real, s: State, step: Step, k: string, deadline: real)
    requires Valid(c) && c.burst >= 1 && Sane(c, slack, s) && Enabled(slack, s, step) && Waits(c, s, k, deadline)
    ensures Waits(c, Apply(c, slack, s, step), k, deadline)
  {
    hide Level, Accrued, Take, BucketAt;
    if step.Wait? {
      TimeKeepsWaits(c, s, k, deadline, step.until);
    } else if s.now < deadline {
      if step.Reserve? && s.pending[step.request].key == k {
        OwnReserve(c, slack, s, step.request);
        WaitingIsDenied(c, s, k, deadline);
      } else {
        OthersKeepMine(c, slack, s, step, k);
      }
      hide Mine;
    }
  }

  /** Every denial so far is still waited for. */
  ghost predicate Remembered(c: Config, s: State, k: string) {
    forall i :: 0 <= i < |s.log| && s.log[i].key == k && !s.log[i].decision.allowed ==> Waits(c, s, k, RetryAt(s.log[i]))
  }

  lemma DenialWaits(c: Config, slack: real, s: State, request: nat)
    requires Valid(c) && c.burst >= 1 && TokenWithin(c, slack) && Sane(c, slack, s) && request in s.pending
    requires s.pending[request].key in s.clients ==> Sound(c, Mine(c, s, s.pending[request].key), s.now)
    ensures var s' := ReserveStep(c, s, request);
      && |s'.log| == |s.log| + 1
      && (!s'.log[|s.log|].decision.allowed ==> Waits(c, s', s.pending[request].key, RetryAt(s'.log[|s.log|])))
  {
    var k, s' := s.pending[request].key, ReserveStep(c, s, request);
    OwnReserve(c, slack, s, request);
    var (d, b) := Take(c, Mine(c, s, k), s.now);
    TakeMeaning(c, Mine(c, s, k), s.now);
    LevelNow(c, b);
    if !d.allowed && c.ttl - slack < d.retryAfter { AccruedStrict(c.rps, c.ttl - slack, d.retryAfter); }
    LevelStaysPositive(c, Mine(c, s, k), s.now);
    assert s.now + d.retryAfter - s.now == d.retryAfter;
    hide Level, Accrued, Take, Mine, ReserveStep, Sane;
  }

  lemma LevelStaysPositive(c: Config, b: Bucket, now: real)
    requires Valid(c) && c.burst >= 1 && Sound(c, b, now)
    ensures Level(c, b, now) >= 0.0
  {
    AccruedMonotone(c.rps, 0.0, now - b.last);
    AccruedAdds(c.rps, 0.0, 0.0);
  }

  ghost predicate Tight(c: Config, s: State, k: string) {
    && Honoured(s.log, k) && Remembered(c, s, k)
    && (k in s.clients ==> Sound(c, Mine(c, s, k), s.now))
  }

  lemma StepKeepsSound(c: Config, slack: real, s: State, step: Step, k: string)
    requires Valid(c) && c.burst >= 1 && Sane(c, slack, s) && Enabled(slack, s, step)
    requires k in s.clients ==> Sound(c, Mine(c, s, k), s.now)
    ensures var s' := Apply(c, slack, s, step); k in s'.clients ==> Sound(c, Mine(c, s', k), s'.now)
  {
    var s' := Apply(c, slack, s, step);
    if step.Reserve? && s.pending[step.request].key == k {
      OwnReserve(c, slack, s, step.request);
      TakeMeaning(c, Mine(c, s, k), s.now);
    } else if k in s.clients {
      OthersKeepMine(c, slack, s, step, k);
    }
    hide Level, Accrued, Take;
  }

  lemma ReserveStaysTight(c: Config, slack: real, s: State, request: nat, k: string)
    requires Valid(c) && c.burst >= 1 && TokenWithin(c, slack) && Sane(c, slack, s) && request in s.pending
    requires Tight(c, s, k)
    ensures Honoured(ReserveStep(c, s, request).log, k) && Remembered(c, ReserveStep(c, s, request), k)
  {
    hide Level, Accrued, Take, BucketAt, Mine;
    var key, s' := s.pending[request].key, Apply(c, slack, s, Step.Reserve(request));
    OwnReserve(c, slack, s, request);
    if key == k { DenialWaits(c, slack, s, request); }
    var n := |s.log|;
    forall i: nat, j: nat ensures HonouredAt(s'.log, k, i, j) {
      if j < n {
        assert HonouredAt(s.log, k, i, j);
      } else if i < j == n && s'.log[i].key == k && key == k && !s'.log[i].decision.allowed && s.now < RetryAt(s'.log[i]) {
        assert s'.log[i] == s.log[i] && Waits(c, s, k, RetryAt(s.log[i]));
        WaitingIsDenied(c, s, k, RetryAt(s.log[i]));
      }
    }
    forall i | 0 <= i < |s'.log| && s'.log[i].key == k && !s'.log[i].decision.allowed
      ensures Waits(c, s', k, RetryAt(s'.log[i]))
    {
      if i < n {
        assert s'.log[i] == s.log[i];
        StepKeepsWaits(c, slack, s, Step.Reserve(request), k, RetryAt(s.log[i]));
      }
    }
  }

  lemma StepStaysTight(c: Config, slack: real, s: State, step: Step, k: string)
    requires Valid(c) && c.burst >= 1 && TokenWithin(c, slack) && Sane(c, slack, s) && Enabled(slack, s, step)
    requires Tight(c, s, k)
    ensures Tight(c, Apply(c, slack, s, step), k)
  {
    StepKeepsSound(c, slack, s, step, k);
    if step.Reserve? {
      hide Sane, Mine, Waits, Sound, Honoured, ReserveStep;
      ReserveStaysTight(c, slack, s, step.request, k);
    } else {
      var s' := Apply(c, slack, s, step);
      assert s'.log == s.log;
      hide Sane, Mine, Waits, Sound, Honoured, Apply, Enabled;
      forall i | 0 <= i < |s.log| && s.log[i].key == k && !s.log[i].decision.allowed
        ensures Waits(c, s', k, RetryAt(s.log[i]))
      {
        StepKeepsWaits(c, slack, s, step, k, RetryAt(s.log[i]));
      }
    }
  }

  lemma {:induction false} RunStaysTight(c: Config, slack: real, s: State, steps: seq<Step>, k: string)
    requires Valid(c) && c.burst >= 1 && 0.0 <= slack <= c.ttl && TokenWithin(c, slack)
    requires Sane(c, slack, s) && Tight(c, s, k) && Runs(c, slack, s, steps)
    ensures Tight(c, Final(c, slack, s, steps), k)
    decreases steps
  {
    hide Sane, Tight, Apply, Enabled, TokenWithin;
    if steps != [] {
      StepKeepsSane(c, slack, s, steps[0]);
      StepStaysTight(c, slack, s, steps[0], k);
      RunStaysTight(c, slack, Apply(c, slack, s, steps[0]), steps[1..], k);
    }
  }

  // ----- exactness -----

  predicate AllDenied(log: seq<Outcome>) {
    forall i :: 0 <= i < |log| ==> !log[i].decision.allowed
  }

  /** Nothing is ever allowed without a burst. */
  lemma {:induction false} NoBurstDenies(c: Config, slack: real, s: State, steps: seq<Step>)
    requires Valid(c) && c.burst < 1 && Runs(c, slack, s, steps) && AllDenied(s.log)
    ensures AllDenied(Final(c, slack, s, steps).log)
    decreases steps
  {
    if steps != [] {
      var s' := Apply(c, slack, s, steps[0]);
      assert AllDenied(s'.log);
      hide Apply, Enabled, AllDenied;
      NoBurstDenies(c, slack, s', steps[1..]);
    }
  }

  lemma EmptyIsDenied(c: Config, slack: real, s: State, key: string, b: nat, since: real)
    requires Valid(c) && c.burst >= 1 && s.pending == Waiters(key, b, since, 1)
    requires Sound(c, BucketAt(c, s, b), s.now) && Level(c, BucketAt(c, s, b), s.now) == 0.0
    ensures Enabled(slack, s, Step.Reserve(0))
    ensures var s', o := Apply(c, slack, s, Step.Reserve(0)), Take(c, BucketAt(c, s, b), s.now).0;
      && s'.pending == map[] && s'.clients == s.clients && s'.now == s.now
      && s'.log == s.log + [Outcome(key, s.now, o)] && !o.allowed && Accrued(c.rps, o.retryAfter) == 1.0
  {
    TakeMeaning(c, BucketAt(c, s, b), s.now);
    hide Take, Level, Accrued, BucketAt;
    assert s.pending.Keys == {0};
    assert s.pending - {0} == map[];
  }

  /** One request too many: a burst and one more, seen together, reserved `gap` later. */
  lemma BurstAndDenial(c: Config, slack: real, key: string, gap: real) returns (s': State, steps: seq<Step>, d: Decision)
    requires Valid(c) && c.burst >= 1 && 0.0 <= gap <= slack
    ensures Runs(c, slack, INITIAL, steps) && s' == Final(c, slack, INITIAL, steps)
    ensures s'.now == gap && s'.pending == map[] && s'.clients == map[key := Slot(0, 0.0)]
    ensures s'.log == Repeat(Outcome(key, gap, ALLOWED), c.burst) + [Outcome(key, gap, d)]
    ensures !d.allowed && Accrued(c.rps, d.retryAfter) == 1.0
  {
    var s1, a := BurstServed(c, slack, INITIAL, key, gap, c.burst + 1);
    hide Take, Level, Accrued, Runs, Final, Waiters;
    EmptyIsDenied(c, slack, s1, key, 0, 0.0);
    d := Take(c, BucketAt(c, s1, 0), s1.now).0;
    s' := Apply(c, slack, s1, Step.Reserve(0));
    hide Apply, Enabled, BucketAt;
    NoMoreSteps(c, slack, s');
    RunUnfolds(c, slack, s1, Step.Reserve(0), []);
    RunConcat(c, slack, INITIAL, a, [Step.Reserve(0)] + []);
    steps := a + ([Step.Reserve(0)] + []);
    assert [] + Repeat(Outcome(key, gap, ALLOWED), c.burst) == Repeat(Outcome(key, gap, ALLOWED), c.burst);
  }

  lemma NoMoreSteps(c: Config, slack: real, s: State)
    requires Valid(c)
    ensures Runs(c, slack, s, []) && Final(c, slack, s, []) == s
  {
  }

  /** The denial is forgotten before its wait is over, and the next request is allowed. */
  lemma ServedTooSoon(c: Config, slack: real, key: string) returns (steps: seq<Step>)
    requires Valid(c) && c.burst >= 1 && 0.0 <= slack && !TokenWithin(c, slack)
    ensures Runs(c, slack, INITIAL, steps) && !Honoured(Final(c, slack, INITIAL, steps).log, key)
  {
    var gap, x := TooSoon(c, slack, 1.0);
    var s1, a, d := BurstAndDenial(c, slack, key, gap);
    if d.retryAfter <= x { AccruedMonotone(c.rps, d.retryAfter, x); }
    hide Accrued, TokenWithin, Runs, Final, Level, Sound, BucketAt;
    var s2, b := IdleSwept(c, slack, s1, key, gap + x);
    var s3, e := BurstServed(c, slack, s2, key, 0.0, c.burst);
    RunConcat(c, slack, s1, b, e);
    RunConcat(c, slack, INITIAL, a, b + e);
    steps := a + (b + e);
    var n, log := c.burst, s3.log;
    RepeatAt(Outcome(key, gap, ALLOWED), n);
    RepeatAt(Outcome(key, gap + x, ALLOWED), n);
    hide Repeat;
    assert log[n] == Outcome(key, gap, d) && log[n + 1] == Outcome(key, gap + x, ALLOWED);
    assert !HonouredAt(log, key, n, n + 1);
  }

  /** A client that calls again before the reported Retry-After has passed is denied, in every
      interleaving, exactly when there is no burst or one token accrues in what the slack leaves of an
      idle TTL. */
  lemma InterleavedRetryIsTightExactly(c: Config, slack: real, k: string)
    requires Valid(c) && 0.0 <= slack
    ensures (forall steps :: Runs(c, slack, INITIAL, steps) ==> Honoured(Final(c, slack, INITIAL, steps).log, k))
      <==> c.burst < 1 || c.rps * (c.ttl - slack) >= 1.0
  {
    if c.burst < 1 {
      forall steps | Runs(c, slack, INITIAL, steps) ensures Honoured(Final(c, slack, INITIAL, steps).log, k) {
        NoBurstDenies(c, slack, INITIAL, steps);
      }
    } else if TokenWithin(c, slack) {
      if c.ttl < slack { AccruedMonotone(c.rps, c.ttl - slack, 0.0); }
      forall steps | Runs(c, slack, INITIAL, steps) ensures Honoured(Final(c, slack, INITIAL, steps).log, k) {
        assert Tight(c, INITIAL, k);
        RunStaysTight(c, slack, INITIAL, steps, k);
      }
    } else {
      var steps := ServedTooSoon(c, slack, k);
    }
  }
}
