/** Eviction transparency with Allow's two clock readings kept apart: a bucket may be spent up to
    `slack` after its key was last seen, so an idle TTL leaves only ttl - slack to refill it. */
module InterleavedTransparency {
  import opened TokenBucket
  import opened LimiterInterleaving
  import opened LimiterExactness

  // ----- what the log says of a key -----

  function TimesOf(log: seq<Outcome>, k: string): seq<real> {
    if log == [] then []
    else
      var n := |log| - 1;
      TimesOf(log[..n], k) + if log[n].key == k then [log[n].at] else []
  }

  function DecisionsOf(log: seq<Outcome>, k: string): seq<Decision> {
    if log == [] then []
    else
      var n := |log| - 1;
      DecisionsOf(log[..n], k) + if log[n].key == k then [log[n].decision] else []
  }

  /** The private bucket after these calls. */
  function SoloEnd(c: Config, b: Bucket, times: seq<real>): Bucket
    requires Valid(c)
    decreases times
  {
    if times == [] then b else SoloEnd(c, Take(c, b, times[0]).1, times[1..])
  }

  lemma {:induction false} SoloExtends(c: Config, b: Bucket, times: seq<real>, t: real)
    requires Valid(c)
    ensures Solo(c, b, times + [t]) == Solo(c, b, times) + [Take(c, SoloEnd(c, b, times), t).0]
    ensures SoloEnd(c, b, times + [t]) == Take(c, SoloEnd(c, b, times), t).1
    decreases times
  {
    hide Take;
    if times == [] {
      assert times + [t] == [t] && [t][1..] == [];
      assert Solo(c, Take(c, b, t).1, []) == [] && SoloEnd(c, Take(c, b, t).1, []) == Take(c, b, t).1;
    } else {
      assert (times + [t])[1..] == times[1..] + [t];
      SoloExtends(c, Take(c, b, times[0]).1, times[1..], t);
    }
  }

  /** What key k's never-evicted bucket would be. */
  function Shadow(c: Config, log: seq<Outcome>, k: string): Bucket
    requires Valid(c)
  {
    SoloEnd(c, Fresh(c), TimesOf(log, k))
  }

  /** Every reservation of key k was decided as its private, never-evicted bucket decides. */
  predicate Faithful(c: Config, log: seq<Outcome>, k: string)
    requires Valid(c)
  {
    DecisionsOf(log, k) == Solo(c, Fresh(c), TimesOf(log, k))
  }

  lemma LogGrows(c: Config, log: seq<Outcome>, o: Outcome, k: string)
    requires Valid(c) && Faithful(c, log, k)
    requires o.key == k ==> o.decision == Take(c, Shadow(c, log, k), o.at).0
    ensures Faithful(c, log + [o], k)
    ensures Shadow(c, log + [o], k) == if o.key == k then Take(c, Shadow(c, log, k), o.at).1 else Shadow(c, log, k)
  {
    hide Take, Solo, SoloEnd;
    assert (log + [o])[..|log|] == log;
    if o.key == k {
      SoloExtends(c, Fresh(c), TimesOf(log, k), o.at);
    } else {
      assert TimesOf(log + [o], k) == TimesOf(log, k) && DecisionsOf(log + [o], k) == DecisionsOf(log, k);
    }
  }

  // ----- the invariant -----

  /** Two buckets that no later call can tell apart. */
  predicate Same(c: Config, b: Bucket, b': Bucket, now: real) {
    Sound(c, b, now) && Sound(c, b', now) && Level(c, b, now) == Level(c, b', now)
  }

  /** The time a forgotten bucket has had to refill covers the burst. */
  predicate RefillsWithin(c: Config, slack: real) {
    c.rps * (c.ttl - slack) >= c.burst as real
  }

  predicate KeyInv(c: Config, slack: real, s: State, k: string)
    requires Valid(c)
  {
    var shadow := Shadow(c, s.log, k);
    && Faithful(c, s.log, k)
    && Sound(c, shadow, s.now)
    && (k in s.clients ==>
          && Same(c, BucketAt(c, s, s.clients[k].bucket), shadow, s.now)
          && shadow.last <= s.clients[k].lastSeen + slack)
    && (k !in s.clients ==> Level(c, shadow, s.now) == c.burst as real)
  }

  /** Keys do not share buckets, and bucket ids are never reused. */
  predicate Separate(s: State) {
    && (forall k :: k in s.clients ==> s.clients[k].bucket < s.created)
    && (forall j, k :: j in s.clients && k in s.clients && j != k ==> s.clients[j].bucket != s.clients[k].bucket)
  }

  lemma WaitKeepsKey(c: Config, slack: real, s: State, until: real, k: string)
    requires Valid(c) && KeyInv(c, slack, s, k) && s.now <= until
    ensures KeyInv(c, slack, s.(now := until), k)
  {
    hide Shadow, Faithful;
    var shadow := Shadow(c, s.log, k);
    LevelGrows(c, shadow, s.now, until);
    if k in s.clients {
      var b := BucketAt(c, s, s.clients[k].bucket);
      assert b == BucketAt(c, s.(now := until), s.clients[k].bucket);
      LevelRebased(c, b, s.now, until);
      LevelRebased(c, shadow, s.now, until);
    }
    hide Level;
  }

  lemma LookupKeepsKey(c: Config, slack: real, s: State, request: nat, key: string, k: string)
    requires Valid(c) && c.burst >= 1 && 0.0 <= s.now && 0.0 <= slack && KeyInv(c, slack, s, k) && Separate(s)
    requires k in s.clients ==> s.clients[k].lastSeen <= s.now
    ensures KeyInv(c, slack, LookupStep(c, s, request, key), k)
  {
    FreshIsFull(c, s.now);
    hide Shadow, Faithful, Level;
    var s' := LookupStep(c, s, request, key);
    if k in s.clients {
      assert s'.clients[k].bucket == s.clients[k].bucket;
      assert BucketAt(c, s', s.clients[k].bucket) == BucketAt(c, s, s.clients[k].bucket);
    }
  }

  lemma ReserveKeepsKey(c: Config, slack: real, s: State, request: nat, k: string)
    requires Valid(c) && c.burst >= 1 && Inv(c, slack, s) && Separate(s) && request in s.pending
    requires KeyInv(c, slack, s, k)
    ensures KeyInv(c, slack, ReserveStep(c, s, request), k)
  {
    var p := s.pending[request];
    var s' := ReserveStep(c, s, request);
    assert s.clients[p.key].bucket == p.bucket;
    var b, shadow := BucketAt(c, s, p.bucket), Shadow(c, s.log, k);
    var o := Outcome(p.key, s.now, Take(c, b, s.now).0);
    if p.key == k {
      TakeByLevel(c, b, shadow, s.now);
      TakeMeaning(c, shadow, s.now);
      hide Take, Level, Shadow, Faithful;
      LogGrows(c, s.log, o, k);
    } else {
      hide Take, Level, Shadow, Faithful;
      LogGrows(c, s.log, o, k);
      assert k in s.clients ==> BucketAt(c, s', s.clients[k].bucket) == BucketAt(c, s, s.clients[k].bucket);
    }
  }

  lemma SweepKeepsKey(c: Config, slack: real, s: State, k: string)
    requires Valid(c) && RefillsWithin(c, slack) && Inv(c, slack, s) && s.cutoff.Some? && KeyInv(c, slack, s, k)
    ensures KeyInv(c, slack, Apply(c, slack, s, Sweep), k)
  {
    hide Shadow, Faithful, Take;
    var s' := Apply(c, slack, s, Sweep);
    if k in s.clients {
      var shadow := Shadow(c, s.log, k);
      assert BucketAt(c, s', s.clients[k].bucket) == BucketAt(c, s, s.clients[k].bucket);
      if k !in s'.clients {
        AccruedMonotone(c.rps, c.ttl - slack, s.now - shadow.last);
        assert Level(c, shadow, s.now) == c.burst as real;
      }
    }
    hide Level, Accrued;
  }

  lemma StepKeepsKey(c: Config, slack: real, s: State, step: Step, k: string)
    requires Valid(c) && c.burst >= 1 && 0.0 <= slack <= c.ttl && RefillsWithin(c, slack)
    requires Inv(c, slack, s) && Separate(s) && 0.0 <= s.now && Enabled(slack, s, step) && KeyInv(c, slack, s, k)
    ensures KeyInv(c, slack, Apply(c, slack, s, step), k)
  {
    match step
    case Wait(until) => WaitKeepsKey(c, slack, s, until, k);
    case Lookup(request, key) => LookupKeepsKey(c, slack, s, request, key, k);
    case Reserve(request) => ReserveKeepsKey(c, slack, s, request, k);
    case ReadCutoff =>
      hide Shadow, Faithful, Level;
      assert k in s.clients ==> BucketAt(c, Apply(c, slack, s, step), s.clients[k].bucket) == BucketAt(c, s, s.clients[k].bucket);
    case Sweep => SweepKeepsKey(c, slack, s, k);
  }

  lemma StepKeepsSeparate(c: Config, slack: real, s: State, step: Step)
    requires Valid(c) && Separate(s) && Enabled(slack, s, step) && 0.0 <= s.now
    ensures Separate(Apply(c, slack, s, step)) && 0.0 <= Apply(c, slack, s, step).now
  {
    hide Take, BucketAt;
  }

  lemma {:induction false} RunKeepsKey(c: Config, slack: real, s: State, steps: seq<Step>, k: string)
    requires Valid(c) && c.burst >= 1 && 0.0 <= slack <= c.ttl && RefillsWithin(c, slack)
    requires Inv(c, slack, s) && Separate(s) && 0.0 <= s.now && KeyInv(c, slack, s, k) && Runs(c, slack, s, steps)
    ensures KeyInv(c, slack, Final(c, slack, s, steps), k)
    decreases steps
  {
    hide Inv, Separate, KeyInv, Apply, Enabled, RefillsWithin;
    if steps != [] {
      StepKeepsInv(c, slack, s, steps[0]);
      StepKeepsSeparate(c, slack, s, steps[0]);
      StepKeepsKey(c, slack, s, steps[0], k);
      RunKeepsKey(c, slack, Apply(c, slack, s, steps[0]), steps[1..], k);
    }
  }

  lemma {:induction false} NoBurstFaithful(c: Config, slack: real, s: State, steps: seq<Step>, k: string)
    requires Valid(c) && c.burst < 1 && Runs(c, slack, s, steps) && Faithful(c, s.log, k)
    ensures Faithful(c, Final(c, slack, s, steps).log, k)
    decreases steps
  {
    if steps != [] {
      var s' := Apply(c, slack, s, steps[0]);
      if steps[0].Reserve? {
        LogGrows(c, s.log, s'.log[|s.log|], k);
      }
      hide Apply, Enabled, Faithful;
      NoBurstFaithful(c, slack, s', steps[1..], k);
    }
  }

  /** Through every interleaving of lookups, reservations, cutoff reads and sweeps, a key's reservations
      are decided as by one private bucket that is never evicted, if there is no burst to lose or what
      is left of an idle TTL after the slack refills the bucket. */
  lemma InterleavedTransparent(c: Config, slack: real, steps: seq<Step>, k: string)
    requires Valid(c) && 0.0 <= slack && (c.burst < 1 || RefillsWithin(c, slack))
    requires Runs(c, slack, INITIAL, steps)
    ensures Faithful(c, Final(c, slack, INITIAL, steps).log, k)
  {
    if c.burst < 1 {
      NoBurstFaithful(c, slack, INITIAL, steps, k);
    } else {
      SlackWithinTTL(c, slack);
      FreshIsFull(c, 0.0);
      assert KeyInv(c, slack, INITIAL, k);
      hide Level, RefillsWithin, Runs, Final;
      RunKeepsKey(c, slack, INITIAL, steps, k);
    }
  }

  lemma SlackWithinTTL(c: Config, slack: real)
    requires Valid(c) && c.burst >= 1 && RefillsWithin(c, slack)
    ensures slack < c.ttl
  {
    if c.ttl <= slack { AccruedMonotone(c.rps, c.ttl - slack, 0.0); }
  }

  // ----- exactness -----

  function Lookups(key: string, n: nat): seq<Step> {
    if n == 0 then [] else [Lookup(n - 1, key)] + Lookups(key, n - 1)
  }

  /** Requests n - 1 down to n - m. */
  function Reserves(n: nat, m: nat): seq<Step>
    requires m <= n
  {
    if m == 0 then [] else [Step.Reserve(n - 1)] + Reserves(n - 1, m - 1)
  }

  /** Requests 0 to n - 1, all handed the same bucket at the same instant. */
  function Waiters(key: string, bucket: nat, since: real, n: nat): (w: map<nat, Pending>)
    ensures forall r: nat :: r in w <==> r < n
    ensures forall r: nat :: r in w ==> w[r] == Pending(key, bucket, since)
  {
    if n == 0 then map[] else Waiters(key, bucket, since, n - 1)[n - 1 := Pending(key, bucket, since)]
  }

  /** The state after further lookups of a key seen at this very instant. */
  function Waiting(s: State, key: string, n: nat): State
    requires key in s.clients
  {
    s.(pending := s.pending + Waiters(key, s.clients[key].bucket, s.now, n))
  }

  lemma OneLookup(c: Config, slack: real, s: State, key: string, n: nat)
    requires Valid(c) && key in s.clients && s.clients[key].lastSeen == s.now
    requires n > 0 && forall r :: r in s.pending ==> r >= n
    ensures Enabled(slack, s, Lookup(n - 1, key))
    ensures var s1 := Apply(c, slack, s, Lookup(n - 1, key));
      && s1.clients == s.clients && s1.now == s.now && (forall r :: r in s1.pending ==> r >= n - 1)
      && Waiting(s1, key, n - 1) == Waiting(s, key, n)
  {
    var b := s.clients[key].bucket;
    var s1 := Apply(c, slack, s, Lookup(n - 1, key));
    assert s1 == s.(pending := s.pending[n - 1 := Pending(key, b, s.now)]);
    assert s1.pending + Waiters(key, b, s.now, n - 1) == s.pending + Waiters(key, b, s.now, n);
  }

  lemma {:induction false} MoreLookups(c: Config, slack: real, s: State, key: string, n: nat)
    requires Valid(c) && key in s.clients && s.clients[key].lastSeen == s.now && forall r :: r in s.pending ==> r >= n
    ensures Runs(c, slack, s, Lookups(key, n)) && Final(c, slack, s, Lookups(key, n)) == Waiting(s, key, n)
    decreases n
  {
    if n == 0 {
      assert s.pending + Waiters(key, s.clients[key].bucket, s.now, 0) == s.pending;
    } else {
      OneLookup(c, slack, s, key, n);
      hide Apply, Enabled, Waiting;
      var s1 := Apply(c, slack, s, Lookup(n - 1, key));
      MoreLookups(c, slack, s1, key, n - 1);
      hide Runs, Final;
      RunUnfolds(c, slack, s, Lookup(n - 1, key), Lookups(key, n - 1));
    }
  }

  /** n requests of a key that has no bucket share a new one. */
  lemma FirstLookups(c: Config, slack: real, s: State, key: string, n: nat)
    requires Valid(c) && n > 0 && key !in s.clients && s.pending == map[]
    ensures Runs(c, slack, s, Lookups(key, n))
    ensures Final(c, slack, s, Lookups(key, n)) ==
      s.(clients := s.clients[key := Slot(s.created, s.now)], created := s.created + 1,
         buckets := s.buckets[s.created := Fresh(c)], pending := Waiters(key, s.created, s.now, n))
  {
    var s1 := Apply(c, slack, s, Lookup(n - 1, key));
    assert s1.pending + Waiters(key, s.created, s.now, n - 1) == Waiters(key, s.created, s.now, n);
    hide Runs, Final;
    MoreLookups(c, slack, s1, key, n - 1);
    hide Apply, Enabled;
    RunUnfolds(c, slack, s, Lookup(n - 1, key), Lookups(key, n - 1));
  }

  /** The states of a burst of reservations differ only in the bucket spent, the requests served and the log. */
  predicate Served(s: State, s': State, key: string, n: nat) {
    && s'.now == s.now && s'.clients == s.clients && s'.created == s.created && s'.cutoff == s.cutoff
    && s'.log == s.log + Repeat(Outcome(key, s.now, ALLOWED), n)
  }

  lemma OneReserved(c: Config, slack: real, s: State, key: string, b: nat, since: real, n: nat)
    requires Valid(c) && c.burst >= 1 && n > 0 && s.pending == Waiters(key, b, since, n)
    requires Sound(c, BucketAt(c, s, b), s.now) && 1.0 <= Level(c, BucketAt(c, s, b), s.now)
    ensures Enabled(slack, s, Step.Reserve(n - 1))
    ensures var s1 := Apply(c, slack, s, Step.Reserve(n - 1));
      && Served(s, s1, key, 1) && s1.pending == Waiters(key, b, since, n - 1)
      && Sound(c, BucketAt(c, s1, b), s1.now)
      && Level(c, BucketAt(c, s1, b), s1.now) == Level(c, BucketAt(c, s, b), s.now) - 1.0
  {
    TakeMeaning(c, BucketAt(c, s, b), s.now);
    LevelNow(c, Take(c, BucketAt(c, s, b), s.now).1);
    hide Take, Level, Accrued;
    var s1 := Apply(c, slack, s, Step.Reserve(n - 1));
    assert s1.pending == Waiters(key, b, since, n - 1);
    assert Repeat(Outcome(key, s.now, ALLOWED), 1) == [Outcome(key, s.now, ALLOWED)];
  }

  lemma ServedMore(s: State, s1: State, s': State, key: string, n: nat)
    requires n > 0 && Served(s, s1, key, 1) && Served(s1, s', key, n - 1)
    ensures Served(s, s', key, n)
  {
    var x := Outcome(key, s.now, ALLOWED);
    assert Repeat(x, 1) == [x] && Repeat(x, n) == [x] + Repeat(x, n - 1);
    hide Repeat;
    assert s.log + [x] + Repeat(x, n - 1) == s.log + ([x] + Repeat(x, n - 1));
  }

  /** A bucket that holds m tokens serves m of the waiting requests at once and keeps the rest. */
  lemma {:induction false} SomeReserved(c: Config, slack: real, s: State, key: string, b: nat, since: real, n: nat, m: nat)
    requires Valid(c) && c.burst >= 1 && s.pending == Waiters(key, b, since, n) && m <= n
    requires Sound(c, BucketAt(c, s, b), s.now) && m as real <= Level(c, BucketAt(c, s, b), s.now)
    ensures Runs(c, slack, s, Reserves(n, m))
    ensures var s' := Final(c, slack, s, Reserves(n, m));
      && Served(s, s', key, m) && s'.pending == Waiters(key, b, since, n - m)
      && Sound(c, BucketAt(c, s', b), s'.now)
      && Level(c, BucketAt(c, s', b), s'.now) == Level(c, BucketAt(c, s, b), s.now) - m as real
    decreases m
  {
    hide Take, Level, Sound, BucketAt, Apply, Enabled;
    if m == 0 {
      assert s.log + Repeat(Outcome(key, s.now, ALLOWED), 0) == s.log;
    } else {
      hide Served, Waiters;
      OneReserved(c, slack, s, key, b, since, n);
      var s1 := Apply(c, slack, s, Step.Reserve(n - 1));
      assert s1.now == s.now by { ServedKeepsClock(s, s1, key); }
      SomeReserved(c, slack, s1, key, b, since, n - 1, m - 1);
      RunUnfolds(c, slack, s, Step.Reserve(n - 1), Reserves(n - 1, m - 1));
      ServedMore(s, s1, Final(c, slack, s1, Reserves(n - 1, m - 1)), key, m);
    }
  }

  lemma ServedKeepsClock(s: State, s': State, key: string)
    requires Served(s, s', key, 1)
    ensures s'.now == s.now
  {
  }

  lemma {:induction false} RunConcat(c: Config, slack: real, s: State, a: seq<Step>, b: seq<Step>)
    requires Valid(c) && Runs(c, slack, s, a) && Runs(c, slack, Final(c, slack, s, a), b)
    ensures Runs(c, slack, s, a + b) && Final(c, slack, s, a + b) == Final(c, slack, Final(c, slack, s, a), b)
    decreases a
  {
    hide Apply, Enabled;
    if a == [] {
      assert a + b == b;
    } else {
      RunConcat(c, slack, Apply(c, slack, s, a[0]), a[1..], b);
      RunUnfolds(c, slack, s, a[0], a[1..] + b);
      assert a + b == [a[0]] + (a[1..] + b);
    }
  }

  lemma {:induction false} RepeatExtends<T>(x: T, n: nat)
    ensures Repeat(x, n + 1) == Repeat(x, n) + [x]
  {
    if n > 0 { RepeatExtends(x, n - 1); }
  }

  lemma OneMoreOutcome(log: seq<Outcome>, o: Outcome)
    ensures TimesOf(log + [o], o.key) == TimesOf(log, o.key) + [o.at]
    ensures DecisionsOf(log + [o], o.key) == DecisionsOf(log, o.key) + [o.decision]
  {
    assert (log + [o])[..|log|] == log;
  }

  lemma {:induction false} RepeatedOutcomes(log: seq<Outcome>, o: Outcome, n: nat)
    ensures TimesOf(log + Repeat(o, n), o.key) == TimesOf(log, o.key) + Repeat(o.at, n)
    ensures DecisionsOf(log + Repeat(o, n), o.key) == DecisionsOf(log, o.key) + Repeat(o.decision, n)
    decreases n
  {
    hide TimesOf, DecisionsOf;
    if n == 0 {
      assert log + Repeat(o, 0) == log;
    } else {
      RepeatedOutcomes(log, o, n - 1);
      RepeatExtends(o, n - 1);
      RepeatExtends(o.at, n - 1);
      RepeatExtends(o.decision, n - 1);
      hide Repeat;
      assert log + Repeat(o, n) == log + Repeat(o, n - 1) + [o];
      OneMoreOutcome(log + Repeat(o, n - 1), o);
    }
  }

  /** Of n requests of a key that has no bucket a burst is reserved `gap` after the lookup: all are
      allowed, and the others find the bucket empty. */
  lemma BurstServed(c: Config, slack: real, s: State, key: string, gap: real, n: nat) returns (s': State, steps: seq<Step>)
    requires Valid(c) && 1 <= c.burst <= n && 0.0 <= gap <= slack && 0.0 <= s.now
    requires key !in s.clients && s.pending == map[]
    ensures Runs(c, slack, s, steps) && s' == Final(c, slack, s, steps)
    ensures s'.now == s.now + gap && s'.pending == Waiters(key, s.created, s.now, n - c.burst) && s'.cutoff == s.cutoff
    ensures s'.clients == s.clients[key := Slot(s.created, s.now)]
    ensures s'.log == s.log + Repeat(Outcome(key, s.now + gap, ALLOWED), c.burst)
    ensures var b := BucketAt(c, s', s.created); Sound(c, b, s'.now) && Level(c, b, s'.now) == 0.0
  {
    var b := s.created;
    FirstLookups(c, slack, s, key, n);
    var s1 := Final(c, slack, s, Lookups(key, n));
    var s2 := Apply(c, slack, s1, Wait(s.now + gap));
    assert BucketAt(c, s2, b) == Fresh(c);
    FreshIsFull(c, s2.now);
    hide Level;
    SomeReserved(c, slack, s2, key, b, s.now, n, c.burst);
    var rest := Reserves(n, c.burst);
    hide Runs, Final, Lookups, Reserves;
    RunUnfolds(c, slack, s1, Wait(s.now + gap), rest);
    RunConcat(c, slack, s, Lookups(key, n), [Wait(s.now + gap)] + rest);
    steps := Lookups(key, n) + ([Wait(s.now + gap)] + rest);
    s' := Final(c, slack, s, steps);
  }

  /** Sweeping at t forgets a key last seen more than a TTL before. */
  lemma IdleSwept(c: Config, slack: real, s: State, key: string, t: real) returns (s': State, steps: seq<Step>)
    requires Valid(c) && s.pending == map[] && s.now <= t
    requires s.clients.Keys == {key} && s.clients[key].lastSeen < t - c.ttl
    ensures Runs(c, slack, s, steps) && s' == Final(c, slack, s, steps)
    ensures s'.now == t && s'.clients == map[] && s'.pending == map[] && s'.log == s.log
  {
    var s1 := Apply(c, slack, s, Wait(t));
    var s2 := Apply(c, slack, s1, ReadCutoff);
    s' := Apply(c, slack, s2, Sweep);
    assert s'.clients.Keys == {};
    steps := [Wait(t)] + ([ReadCutoff] + ([Sweep] + []));
    hide Apply;
    RunUnfolds(c, slack, s2, Sweep, []);
    RunUnfolds(c, slack, s1, ReadCutoff, [Sweep] + []);
    RunUnfolds(c, slack, s, Wait(t), [ReadCutoff] + ([Sweep] + []));
  }

  /** A private bucket does not allow two full bursts x apart, x too short to refill it. */
  lemma NotTwoBursts(c: Config, t: real, x: real)
    requires Valid(c) && c.burst >= 1 && 0.0 <= t && 0.0 <= x && Accrued(c.rps, x) < c.burst as real
    ensures var n := c.burst;
      Solo(c, Fresh(c), Repeat(t, n) + Repeat(t + x, n)) != Repeat(ALLOWED, n) + Repeat(ALLOWED, n)
  {
    hide Solo, Repeat, Accrued;
    var n, u := c.burst, t + x;
    RepeatAt(ALLOWED, n);
    var allowed, later := Repeat(ALLOWED, n), Repeat(u, n);
    var spent := Bucket(0.0, t);
    assert u - t == x;
    assert Level(c, spent, u) < n as real;
    if Solo(c, Fresh(c), Repeat(t, n) + later) == allowed + allowed {
      FreshIsFull(c, t);
      SoloBurst(c, Fresh(c), t, n, later);
      assert (allowed + allowed)[n..] == allowed && later + [] == later;
      SoloBurst(c, spent, u, n, []);
    }
  }

  lemma TwoBurstsUnfaithful(c: Config, key: string, t: real, x: real)
    requires Valid(c) && c.burst >= 1 && 0.0 <= t && 0.0 <= x && Accrued(c.rps, x) < c.burst as real
    ensures var n := c.burst;
      !Faithful(c, Repeat(Outcome(key, t, ALLOWED), n) + Repeat(Outcome(key, t + x, ALLOWED), n), key)
  {
    var n := c.burst;
    var first := Repeat(Outcome(key, t, ALLOWED), n);
    assert TimesOf([], key) == [] && DecisionsOf([], key) == [];
    hide Accrued, Solo, Repeat, TimesOf, DecisionsOf;
    RepeatedOutcomes([], Outcome(key, t, ALLOWED), n);
    assert [] + first == first && [] + Repeat(t, n) == Repeat(t, n) && [] + Repeat(ALLOWED, n) == Repeat(ALLOWED, n);
    RepeatedOutcomes(first, Outcome(key, t + x, ALLOWED), n);
    NotTwoBursts(c, t, x);
  }

  /** Spend the burst as late after the key was seen as the slack and the TTL let it, be swept just past
      the TTL, spend it again. */
  lemma ForgottenTooSoon(c: Config, slack: real, key: string) returns (steps: seq<Step>)
    requires Valid(c) && c.burst >= 1 && 0.0 <= slack && !RefillsWithin(c, slack)
    ensures Runs(c, slack, INITIAL, steps) && !Faithful(c, Final(c, slack, INITIAL, steps).log, key)
  {
    var gap, x := TooSoon(c, slack, c.burst as real);
    hide Accrued, RefillsWithin, Runs, Final, Faithful;
    var s1, a := BurstServed(c, slack, INITIAL, key, gap, c.burst);
    var s2, b := IdleSwept(c, slack, s1, key, gap + x);
    var s3, d := BurstServed(c, slack, s2, key, 0.0, c.burst);
    RunConcat(c, slack, s1, b, d);
    RunConcat(c, slack, INITIAL, a, b + d);
    steps := a + (b + d);
    var n := c.burst;
    assert s3.log == Repeat(Outcome(key, gap, ALLOWED), n) + Repeat(Outcome(key, gap + x, ALLOWED), n);
    TwoBurstsUnfaithful(c, key, gap, x);
  }

  /** A wait x after a reservation made `gap` after its lookup that outlasts the idle TTL but does not
      accrue the given tokens. */
  lemma TooSoon(c: Config, slack: real, tokens: real) returns (gap: real, x: real)
    requires Valid(c) && 0.0 <= slack && tokens > 0.0 && Accrued(c.rps, c.ttl - slack) < tokens
    ensures 0.0 <= gap <= slack && 0.0 <= x && c.ttl < gap + x && Accrued(c.rps, x) < tokens
  {
    gap := Min(slack, c.ttl);
    var left, full := c.ttl - gap, tokens / c.rps;
    AccruedOver(c.rps, tokens);
    AccruedAdds(c.rps, 0.0, 0.0);
    if full <= left { AccruedMonotone(c.rps, full, left); }
    x := (left + full) / 2.0;
    AccruedStrict(c.rps, x, full);
    hide Accrued;
  }

  /** Every interleaving decides every reservation as a private, never-evicted bucket would, exactly when
      there is no burst to lose or what is left of an idle TTL after the slack refills the bucket. */
  lemma InterleavedTransparencyIsExact(c: Config, slack: real, k: string)
    requires Valid(c) && 0.0 <= slack
    ensures (forall steps :: Runs(c, slack, INITIAL, steps) ==> Faithful(c, Final(c, slack, INITIAL, steps).log, k))
      <==> c.burst < 1 || c.rps * (c.ttl - slack) >= c.burst as real
  {
    if c.burst < 1 || RefillsWithin(c, slack) {
      forall steps | Runs(c, slack, INITIAL, steps) ensures Faithful(c, Final(c, slack, INITIAL, steps).log, k) {
        InterleavedTransparent(c, slack, steps, k);
      }
    } else {
      var steps := ForgottenTooSoon(c, slack, k);
    }
  }
}
