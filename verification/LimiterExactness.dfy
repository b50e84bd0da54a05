/** Eviction transparency is exact: when an idle TTL does not refill the bucket, a run exists
    that shows the difference, so the hypothesis of RateLimiter.Transparency is necessary. */
module LimiterExactness {
  import opened TokenBucket
  import opened RateLimiter

  /** n calls of key k at one instant. */
  function Burst(k: string, t: real, n: nat): seq<Event> {
    if n == 0 then [] else [Call(k, t)] + Burst(k, t, n - 1)
  }

  function Repeat<T>(x: T, n: nat): seq<T> {
    if n == 0 then [] else [x] + Repeat(x, n - 1)
  }

  /** The tokens key k can spend at t. */
  function Holding(c: Config, m: Clients, k: string, t: real): real {
    if k in m then Level(c, m[k].bucket, t) else c.burst as real
  }

  lemma OneAllowed(c: Config, m: Clients, k: string, t: real)
    requires Valid(c) && c.burst >= 1 && 0.0 <= t && (k in m ==> Sound(c, m[k].bucket, t))
    requires Holding(c, m, k, t) >= 1.0
    ensures AllowStep(c, m, k, t) == (ALLOWED, m[k := Entry(Bucket(Holding(c, m, k, t) - 1.0, t), t)])
    ensures Holding(c, AllowStep(c, m, k, t).1, k, t) == Holding(c, m, k, t) - 1.0
    ensures Sound(c, AllowStep(c, m, k, t).1[k].bucket, t)
  {
    FreshIsFull(c, t);
    var b := if k in m then m[k].bucket else Fresh(c);
    TakeMeaning(c, b, t);
    LevelNow(c, Take(c, b, t).1);
    hide Take, Level;
  }

  lemma BurstUnfolds(c: Config, m: Clients, k: string, t: real, n: nat, rest: seq<Event>)
    requires Valid(c) && n > 0
    ensures DecisionsFor(c, m, Burst(k, t, n) + rest, k)
         == [AllowStep(c, m, k, t).0] + DecisionsFor(c, AllowStep(c, m, k, t).1, Burst(k, t, n - 1) + rest, k)
  {
    hide AllowStep;
    var es := Burst(k, t, n) + rest;
    assert es[0] == Call(k, t) && es[1..] == Burst(k, t, n - 1) + rest;
  }

  lemma RepeatUnfolds<T>(x: T, n: nat, rest: seq<T>)
    requires n > 0
    ensures Repeat(x, n) + rest == [x] + (Repeat(x, n - 1) + rest)
  {
  }

  /** A key that holds n tokens gets n calls allowed at once and keeps the rest. */
  lemma {:induction false} BurstAllowed(c: Config, m: Clients, k: string, t: real, n: nat, rest: seq<Event>)
      returns (m': Clients)
    requires Valid(c) && c.burst >= 1 && 0.0 <= t && (k in m ==> Sound(c, m[k].bucket, t))
    requires n as real <= Holding(c, m, k, t)
    ensures DecisionsFor(c, m, Burst(k, t, n) + rest, k) == Repeat(ALLOWED, n) + DecisionsFor(c, m', rest, k)
    ensures n == 0 ==> m' == m
    ensures n > 0 ==> m' == m[k := Entry(Bucket(Holding(c, m, k, t) - n as real, t), t)]
    decreases n
  {
    hide Level, Take, AllowStep, Sound, Valid;
    if n == 0 {
      m' := m;
      assert Burst(k, t, n) + rest == rest;
      assert Repeat(ALLOWED, 0) + DecisionsFor(c, m', rest, k) == DecisionsFor(c, m', rest, k);
    } else {
      OneAllowed(c, m, k, t);
      var m1 := AllowStep(c, m, k, t).1;
      m' := BurstAllowed(c, m1, k, t, n - 1, rest);
      BurstUnfolds(c, m, k, t, n, rest);
      hide DecisionsFor, Burst, Holding;
      RepeatUnfolds(ALLOWED, n, DecisionsFor(c, m', rest, k));
    }
  }

  /** The private bucket allows n calls at once only if it holds n tokens. */
  lemma {:induction false} SoloBurst(c: Config, b: Bucket, t: real, n: nat, rest: seq<real>)
    requires Valid(c) && c.burst >= 1 && Sound(c, b, t)
    requires |Solo(c, b, Repeat(t, n) + rest)| >= n
    requires forall i :: 0 <= i < n ==> Solo(c, b, Repeat(t, n) + rest)[i].allowed
    ensures Level(c, b, t) >= n as real
    ensures n > 0 ==> Solo(c, b, Repeat(t, n) + rest)[n..] == Solo(c, Bucket(Level(c, b, t) - n as real, t), rest)
    decreases n
  {
    AccruedMonotone(c.rps, 0.0, t - b.last);
    AccruedAdds(c.rps, 0.0, 0.0);
    if n > 0 {
      var b' := Take(c, b, t).1;
      var times := Repeat(t, n - 1) + rest;
      TakeMeaning(c, b, t);
      assert Repeat(t, n) + rest == [t] + times;
      SoloUnfolds(c, b, t, times);
      var all, later := Solo(c, b, [t] + times), Solo(c, b', times);
      assert all[0].allowed;
      assert forall i :: 0 <= i < n - 1 ==> later[i] == all[i + 1];
      LevelNow(c, b');
      hide Level, Take;
      assert Level(c, b', t) == Level(c, b, t) - 1.0;
      SoloBurst(c, b', t, n - 1, rest);
      assert all[n..] == later[n - 1..];
      if n == 1 {
        assert Repeat(t, 0) + rest == rest;
      }
    }
  }

  lemma CallTimesUnfold(k: string, t: real, es: seq<Event>)
    ensures CallTimes([Call(k, t)] + es, k) == [t] + CallTimes(es, k)
  {
    assert ([Call(k, t)] + es)[1..] == es;
  }

  lemma {:induction false} BurstTimes(k: string, t: real, n: nat, rest: seq<Event>)
    ensures CallTimes(Burst(k, t, n) + rest, k) == Repeat(t, n) + CallTimes(rest, k)
  {
    if n == 0 {
      assert Burst(k, t, 0) + rest == rest;
      assert Repeat(t, 0) + CallTimes(rest, k) == CallTimes(rest, k);
    } else {
      BurstTimes(k, t, n - 1, rest);
      assert Burst(k, t, n) == [Call(k, t)] + Burst(k, t, n - 1);
      var later, times := Burst(k, t, n - 1) + rest, CallTimes(rest, k);
      RepeatUnfolds(t, n, times);
      assert Burst(k, t, n) + rest == [Call(k, t)] + later;
      hide Burst, Repeat;
      CallTimesUnfold(k, t, later);
    }
  }

  lemma {:induction false} BurstTimed(k: string, t: real, n: nat, rest: seq<Event>, now: real)
    requires now <= t && Timed(rest, t)
    ensures Timed(Burst(k, t, n) + rest, now)
  {
    if n == 0 {
      assert Burst(k, t, 0) + rest == rest;
    } else {
      BurstTimed(k, t, n - 1, rest, t);
      assert (Burst(k, t, n) + rest)[1..] == Burst(k, t, n - 1) + rest;
    }
  }

  lemma {:induction false} RepeatAt<T>(x: T, n: nat)
    ensures |Repeat(x, n)| == n && forall i :: 0 <= i < n ==> Repeat(x, n)[i] == x
  {
    if n > 0 { RepeatAt(x, n - 1); }
  }

  /** Spend the burst, fall idle just past the TTL, spend the burst again. */
  function Relapse(c: Config, k: string, t: real): seq<Event>
    requires c.burst >= 0
  {
    Burst(k, 0.0, c.burst) + ([Tick(t)] + (Burst(k, t, c.burst) + []))
  }

  /** An instant after the TTL at which the spent bucket is not yet full again. */
  function JustIdle(c: Config): real
    requires Valid(c)
  {
    (c.ttl + c.burst as real / c.rps) / 2.0
  }

  lemma JustIdleMeaning(c: Config)
    requires Valid(c) && !Refills(c)
    ensures JustIdle(c) > c.ttl && c.rps * JustIdle(c) < c.burst as real
  {
    var x := c.burst as real / c.rps;
    AccruedOver(c.rps, c.burst as real);
    if x <= c.ttl { AccruedMonotone(c.rps, x, c.ttl); }
    assert c.rps * JustIdle(c) == (c.rps * c.ttl + c.rps * x) / 2.0;
  }

  /** The real limiter, having forgotten the debt, allows both bursts in full. */
  lemma RelapseAllowed(c: Config, k: string)
    requires Valid(c) && c.burst >= 1 && !Refills(c)
    ensures DecisionsFor(c, map[], Relapse(c, k, JustIdle(c)), k) == Repeat(ALLOWED, c.burst) + Repeat(ALLOWED, c.burst)
  {
    var t := JustIdle(c);
    JustIdleMeaning(c);
    var second := Burst(k, t, c.burst) + [];
    var third := [Tick(t)] + second;
    var m := BurstAllowed(c, map[], k, 0.0, c.burst, third);
    var m' := EvictStep(c, m, t);
    assert m'.Keys == {};
    assert third[1..] == second && DecisionsFor(c, m, third, k) == DecisionsFor(c, m', second, k);
    var m'' := BurstAllowed(c, m', k, t, c.burst, []);
    assert DecisionsFor(c, m'', [], k) == [];
    assert Repeat(ALLOWED, c.burst) + [] == Repeat(ALLOWED, c.burst);
  }

  /** The private bucket cannot: it still remembers the debt. */
  lemma RelapseRemembered(c: Config, k: string)
    requires Valid(c) && c.burst >= 1 && !Refills(c)
    ensures Solo(c, Fresh(c), CallTimes(Relapse(c, k, JustIdle(c)), k)) != Repeat(ALLOWED, c.burst) + Repeat(ALLOWED, c.burst)
  {
    var n, t := c.burst, JustIdle(c);
    var second := Burst(k, t, n) + [];
    BurstTimes(k, 0.0, n, [Tick(t)] + second);
    BurstTimes(k, t, n, []);
    assert ([Tick(t)] + second)[1..] == second;
    var times := Repeat(0.0, n) + (Repeat(t, n) + []);
    assert CallTimes(Relapse(c, k, t), k) == times;
    RepeatAt(ALLOWED, n);
    var ds := Solo(c, Fresh(c), times);
    if ds == Repeat(ALLOWED, n) + Repeat(ALLOWED, n) {
      JustIdleMeaning(c);
      FreshIsFull(c, 0.0);
      SoloBurst(c, Fresh(c), 0.0, n, Repeat(t, n) + []);
      var spent := Bucket(0.0, 0.0);
      assert ds[n..] == Repeat(ALLOWED, n) == Solo(c, spent, Repeat(t, n) + []);
      SoloBurst(c, spent, t, n, []);
      assert false;
    }
  }

  /** Eviction is invisible in every run exactly when an idle TTL refills the bucket. */
  lemma TransparencyIsExact(c: Config, k: string)
    requires Valid(c)
    ensures (forall es :: Timed(es, 0.0) ==> DecisionsFor(c, map[], es, k) == Solo(c, Fresh(c), CallTimes(es, k)))
      <==> c.rps * c.ttl >= c.burst as real
  {
    hide Level, Take, AllowStep, EvictStep, JustIdle, Fresh;
    if Refills(c) {
      forall es | Timed(es, 0.0)
        ensures DecisionsFor(c, map[], es, k) == Solo(c, Fresh(c), CallTimes(es, k))
      {
        Transparency(c, es, k);
      }
    } else {
      assert c.burst >= 1 by { AccruedMonotone(c.rps, 0.0, c.ttl); AccruedAdds(c.rps, 0.0, 0.0); }
      var t := JustIdle(c);
      JustIdleMeaning(c);
      var third := [Tick(t)] + (Burst(k, t, c.burst) + []);
      BurstTimed(k, t, c.burst, [], t);
      assert third[1..] == Burst(k, t, c.burst) + [];
      BurstTimed(k, 0.0, c.burst, third, 0.0);
      RelapseAllowed(c, k);
      RelapseRemembered(c, k);
      assert Timed(Relapse(c, k, t), 0.0);
    }
  }
}
