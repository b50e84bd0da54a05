/** One key's token bucket: the contract of golang.org/x/time/rate that
    internal/ratelimit/memory.go relies on, over the reals.  Times and durations are
    seconds.  Reserve, Delay and Cancel of one Allow call happen at one instant. */
module TokenBucket {

  /** The limiter's parameters: refill rate, bucket depth and idle TTL. */
  datatype Config = Config(rps: real, burst: int, ttl: real)

  /** What a running server has: a positive rate (enforced by configuration validation)
      and a TTL floored at one minute by NewInMemory.  The burst is unconstrained. */
  predicate Valid(c: Config) {
    c.rps > 0.0 && c.ttl >= 60.0
  }

  /** The tokens in the bucket at time `last`. */
  datatype Bucket = Bucket(tokens: real, last: real)

  /** A granted reservation: how long the caller must wait, and the bucket that paid for it. */
  datatype Reservation = NotOK | Reserved(delay: real, bucket: Bucket)

  datatype Decision = Decision(allowed: bool, retryAfter: real)

  const DENIED_NO_HINT := Decision(false, 0.0)
  const ALLOWED := Decision(true, 0.0)

  function Min(a: real, b: real): real { if a <= b then a else b }

  /** The tokens that accrue in dt at the given rate. */
  function Accrued(rate: real, dt: real): real { rate * dt }

  /** A new bucket is full. */
  function Fresh(c: Config): Bucket { Bucket(c.burst as real, 0.0) }

  /** The tokens available at time t; a clock that steps back refills nothing. */
  function Level(c: Config, b: Bucket, t: real): real {
    var elapsed := if t < b.last then 0.0 else t - b.last;
    Min(c.burst as real, b.tokens + Accrued(c.rps, elapsed))
  }

  /** Takes one token now, going into debt when there is none: the debt is the delay. */
  function Reserve(c: Config, b: Bucket, now: real): Reservation
    requires Valid(c)
  {
    if c.burst < 1 then NotOK
    else
      var tokens := Level(c, b, now) - 1.0;
      Reserved(if tokens < 0.0 then -tokens / c.rps else 0.0, Bucket(tokens, now))
  }

  /** Gives the reserved token back, never above the burst. */
  function Cancel(c: Config, b: Bucket, now: real): Bucket {
    Bucket(Min(c.burst as real, Level(c, b, now) + 1.0), now)
  }

  /** One Allow call on one bucket: reserve, and cancel when the token is not there yet. */
  function Take(c: Config, b: Bucket, now: real): (Decision, Bucket)
    requires Valid(c)
  {
    match Reserve(c, b, now)
    case NotOK => (DENIED_NO_HINT, b)
    case Reserved(delay, b') =>
      if delay > 0.0 then (Decision(false, delay), Cancel(c, b', now)) else (ALLOWED, b')
  }

  /** The bucket is in its normal range at time now. */
  predicate Sound(c: Config, b: Bucket, now: real) {
    0.0 <= b.tokens <= c.burst as real && b.last <= now
  }

  /** The reference limiter for one key: a single bucket, no map, no eviction. */
  function Solo(c: Config, b: Bucket, times: seq<real>): seq<Decision>
    requires Valid(c)
    decreases times
  {
    if times == [] then []
    else
      var (d, b') := Take(c, b, times[0]);
      [d] + Solo(c, b', times[1..])
  }

  lemma AccruedMonotone(rate: real, dt: real, dt': real)
    requires rate >= 0.0 && dt <= dt'
    ensures Accrued(rate, dt) <= Accrued(rate, dt')
  {
  }

  lemma AccruedStrict(rate: real, dt: real, dt': real)
    requires rate > 0.0 && dt < dt'
    ensures Accrued(rate, dt) < Accrued(rate, dt')
  {
    assert rate * (dt' - dt) > 0.0;
  }

  lemma AccruedFaster(rate: real, rate': real, dt: real)
    requires rate <= rate' && dt >= 0.0
    ensures Accrued(rate, dt) <= Accrued(rate', dt)
  {
  }

  lemma AccruedAdds(rate: real, dt: real, dt': real)
    ensures Accrued(rate, dt + dt') == Accrued(rate, dt) + Accrued(rate, dt')
    ensures Accrued(rate, 0.0) == 0.0
  {
  }

  lemma AccruedOver(rate: real, x: real)
    requires rate > 0.0
    ensures Accrued(rate, x / rate) == x
    ensures x > 0.0 ==> x / rate > 0.0
  {
  }

  /** Without a burst every call is denied, with nothing to wait for, and changes nothing. */
  lemma NoBurstTakes(c: Config, b: Bucket, now: real)
    requires Valid(c) && c.burst < 1
    ensures Take(c, b, now) == (Decision(false, 0.0), b)
  {
  }

  /** A call is allowed exactly when a whole token is there; a denied call reports the exact
      time to the next token and leaves the level as it found it. */
  lemma TakeMeaning(c: Config, b: Bucket, now: real)
    requires Valid(c) && c.burst >= 1 && Sound(c, b, now)
    ensures var (d, b') := Take(c, b, now);
      && Sound(c, b', now) && b'.last == now
      && (d.allowed <==> Level(c, b, now) >= 1.0)
      && b'.tokens == Level(c, b, now) - (if d.allowed then 1.0 else 0.0)
      && (d.allowed ==> d == ALLOWED)
      && (!d.allowed ==> d.retryAfter > 0.0 && Level(c, b, now) + Accrued(c.rps, d.retryAfter) == 1.0)
  {
    AccruedMonotone(c.rps, 0.0, now - b.last);
    AccruedAdds(c.rps, 0.0, 0.0);
    var level := Level(c, b, now);
    if level < 1.0 {
      var delay := (1.0 - level) / c.rps;
      AccruedOver(c.rps, 1.0 - level);
      hide Accrued;
      assert delay > 0.0;
      assert Reserve(c, b, now) == Reserved(delay, Bucket(level - 1.0, now));
      assert Level(c, Bucket(level - 1.0, now), now) == level - 1.0;
    }
  }

  lemma LevelGrows(c: Config, b: Bucket, t: real, u: real)
    requires Valid(c) && b.last <= t <= u
    ensures Level(c, b, t) <= Level(c, b, u) <= Level(c, b, t) + Accrued(c.rps, u - t)
  {
    AccruedAdds(c.rps, t - b.last, u - t);
    AccruedAdds(c.rps, 0.0, 0.0);
    AccruedMonotone(c.rps, 0.0, u - t);
    hide Accrued;
    assert (t - b.last) + (u - t) == u - b.last;
  }

  /** The level straight after a change, before any time passes. */
  lemma LevelNow(c: Config, b: Bucket)
    requires b.tokens <= c.burst as real
    ensures Level(c, b, b.last) == b.tokens
  {
    AccruedAdds(c.rps, 0.0, 0.0);
  }

  /** A bucket re-based at a later instant refills along the same line. */
  lemma LevelRebased(c: Config, b: Bucket, t: real, u: real)
    requires Valid(c) && b.last <= t <= u
    ensures Level(c, Bucket(Level(c, b, t), t), u) == Level(c, b, u)
  {
    AccruedAdds(c.rps, t - b.last, u - t);
    AccruedAdds(c.rps, 0.0, 0.0);
    AccruedMonotone(c.rps, 0.0, u - t);
    hide Accrued;
    assert (t - b.last) + (u - t) == u - b.last;
  }

  lemma FreshIsFull(c: Config, at: real)
    requires Valid(c)
    ensures Level(c, Fresh(c), at) == c.burst as real
  {
    AccruedMonotone(c.rps, 0.0, if at < 0.0 then 0.0 else at);
    AccruedAdds(c.rps, 0.0, 0.0);
  }

  /** A bucket's next state depends only on its level. */
  lemma TakeByLevel(c: Config, b: Bucket, b': Bucket, at: real)
    requires Valid(c) && c.burst >= 1 && Level(c, b, at) == Level(c, b', at)
    ensures Take(c, b, at) == Take(c, b', at)
  {
    hide Level;
  }

  lemma SoloUnfolds(c: Config, b: Bucket, t: real, times: seq<real>)
    requires Valid(c)
    ensures Solo(c, b, [t] + times) == [Take(c, b, t).0] + Solo(c, Take(c, b, t).1, times)
  {
    hide Take;
    assert ([t] + times)[1..] == times;
  }
}
