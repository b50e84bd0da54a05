/** The per-key limiter of internal/ratelimit/memory.go: a map of token buckets whose idle
    entries a janitor evicts, and the runs of calls and janitor ticks it serves. */
module RateLimiter {
  import opened TokenBucket

  /** One key's bucket and the last time the key was seen. */
  datatype Entry = Entry(bucket: Bucket, lastSeen: real)

  type Clients = map<string, Entry>

  const MIN_IDLE_TTL := 60.0

  /** The map after the locked lookup: the key has a bucket and was seen just now. */
  function Seen(c: Config, m: Clients, key: string, now: real): Clients {
    m[key := Entry(if key in m then m[key].bucket else Fresh(c), now)]
  }

  function AllowStep(c: Config, m: Clients, key: string, now: real): (Decision, Clients)
    requires Valid(c)
  {
    var (d, b) := Take(c, Seen(c, m, key, now)[key].bucket, now);
    (d, m[key := Entry(b, now)])
  }

  predicate Idle(c: Config, e: Entry, now: real) {
    e.lastSeen < now - c.ttl
  }

  function EvictStep(c: Config, m: Clients, now: real): Clients {
    map k | k in m && !Idle(c, m[k], now) :: m[k]
  }

  /** The limiter object.  The mutex makes the lookup and the sweep one step each.  Allow merges the
      instant of its lookup with that of its reservation, which comes after the lock is released;
      LimiterInterleaving keeps the two apart. */
  class InMemory {
    const cfg: Config
    var clients: Clients
    var stopped: bool

    constructor (rps: real, burst: int, idleTTL: real)
      ensures cfg == Config(rps, burst, if idleTTL < 60.0 then 60.0 else idleTTL)
      ensures rps > 0.0 ==> Valid(cfg)
      ensures clients == map[] && !stopped
    {
      cfg := Config(rps, burst, if idleTTL < MIN_IDLE_TTL then MIN_IDLE_TTL else idleTTL);
      clients := map[];
      stopped := false;
    }

    method Allow(key: string, now: real) returns (d: Decision)
      requires Valid(cfg)
      modifies this`clients
      ensures (d, clients) == AllowStep(cfg, old(clients), key, now)
    {
      FindBucket(key, now);
      var entry := clients[key];
      match Reserve(cfg, entry.bucket, now) {
        case NotOK =>
          d := DENIED_NO_HINT;
        case Reserved(delay, bucket) =>
          if delay > 0.0 {
            clients := clients[key := entry.(bucket := Cancel(cfg, bucket, now))];
            d := Decision(false, delay);
          } else {
            clients := clients[key := entry.(bucket := bucket)];
            d := ALLOWED;
          }
      }
      assert clients == old(clients)[key := clients[key]];
    }

    /** The locked lookup: creates the bucket on first use and stamps the key as seen. */
    method FindBucket(key: string, now: real)
      modifies this`clients
      ensures clients == Seen(cfg, old(clients), key, now)
      ensures key in clients && clients[key].lastSeen == now
      ensures clients[key].bucket == if key in old(clients) then old(clients)[key].bucket else Bucket(cfg.burst as real, 0.0)
      ensures clients.Keys == old(clients).Keys + {key} && forall k :: k in old(clients) && k != key ==> clients[k] == old(clients)[k]
    {
      if key !in clients {
        clients := clients[key := Entry(Fresh(cfg), now)];
      }
      clients := clients[key := clients[key].(lastSeen := now)];
    }

    /** Deletes every idle entry, visiting the keys in whatever order the map yields them. */
    method EvictIdle(now: real)
      modifies this`clients
      ensures clients == EvictStep(cfg, old(clients), now)
      ensures forall k :: k in clients <==> k in old(clients) && now - cfg.ttl <= old(clients)[k].lastSeen
      ensures forall k :: k in clients ==> clients[k] == old(clients)[k]
    {
      var todo := clients.Keys;
      while todo != {}
        invariant todo <= old(clients).Keys
        invariant forall k :: k in clients <==> k in old(clients) && (k in todo || !Idle(cfg, old(clients)[k], now))
        invariant forall k :: k in clients ==> clients[k] == old(clients)[k]
        decreases todo
      {
        var key :| key in todo;
        todo := todo - {key};
        if Idle(cfg, clients[key], now) {
          clients := clients - {key};
        }
      }
    }

    /** Closes the stop channel; calls after the first are no-ops. */
    method Stop()
      modifies this`stopped
      ensures stopped
    {
      if stopped {
        return;
      }
      stopped := true;
    }

    /** One turn of the janitor's select.  Once stopped, the exit is ready; if a tick is ready too the
        runtime may still take it first.  The janitor exits only after Stop, and exiting evicts nothing. */
    method JanitorTurn(now: real, tickFirst: bool) returns (exit: bool)
      modifies this`clients
      ensures exit <==> stopped && !tickFirst
      ensures clients == if exit then old(clients) else EvictStep(cfg, old(clients), now)
    {
      if stopped && !tickFirst {
        return true;
      }
      EvictIdle(now);
      return false;
    }
  }

  // ----- runs -----

  datatype Event = Call(key: string, at: real) | Tick(at: real)

  predicate Calls(e: Event, k: string) {
    e.Call? && e.key == k
  }

  /** Event times never go back, starting no earlier than now. */
  predicate Timed(es: seq<Event>, now: real) {
    es == [] || (now <= es[0].at && Timed(es[1..], es[0].at))
  }

  function Apply(c: Config, m: Clients, e: Event): Clients
    requires Valid(c)
  {
    match e
    case Call(key, at) => AllowStep(c, m, key, at).1
    case Tick(at) => EvictStep(c, m, at)
  }

  function Final(c: Config, m: Clients, es: seq<Event>): Clients
    requires Valid(c)
    decreases es
  {
    if es == [] then m else Final(c, Apply(c, m, es[0]), es[1..])
  }

  /** The decisions the run hands to key k, in order. */
  function DecisionsFor(c: Config, m: Clients, es: seq<Event>, k: string): seq<Decision>
    requires Valid(c)
    decreases es
  {
    if es == [] then []
    else
      var later := DecisionsFor(c, Apply(c, m, es[0]), es[1..], k);
      if Calls(es[0], k) then [AllowStep(c, m, k, es[0].at).0] + later else later
  }

  /** The instants at which key k calls. */
  function CallTimes(es: seq<Event>, k: string): seq<real> {
    if es == [] then []
    else if Calls(es[0], k) then [es[0].at] + CallTimes(es[1..], k)
    else CallTimes(es[1..], k)
  }

  // ----- eviction transparency -----

  /** Evicting forgets nothing: an idle TTL refills the deepest debt. */
  predicate Refills(c: Config) {
    c.rps * c.ttl >= c.burst as real
  }

  /** b is what key k's never-evicted bucket would be: the stored one, or one already full again. */
  predicate Shadows(c: Config, m: Clients, k: string, b: Bucket, now: real) {
    && Sound(c, b, now)
    && (k in m ==> m[k] == Entry(b, b.last))
    && (k !in m ==> Level(c, b, now) == c.burst as real)
  }

  lemma ShadowsOwnCall(c: Config, m: Clients, k: string, b: Bucket, now: real, at: real)
    requires Valid(c) && c.burst >= 1 && Shadows(c, m, k, b, now) && now <= at
    ensures AllowStep(c, m, k, at).0 == Take(c, b, at).0
    ensures Shadows(c, AllowStep(c, m, k, at).1, k, Take(c, b, at).1, at)
  {
    TakeMeaning(c, b, at);
    if k !in m {
      LevelGrows(c, b, now, at);
      FreshIsFull(c, at);
      TakeByLevel(c, b, Fresh(c), at);
    }
    hide Take, Level;
  }

  /** No janitor tick: what a run looks like once the janitor has exited. */
  predicate CallsOnly(es: seq<Event>) {
    forall i :: 0 <= i < |es| ==> es[i].Call?
  }

  lemma ShadowsOther(c: Config, m: Clients, k: string, b: Bucket, now: real, e: Event)
    requires Valid(c) && (Refills(c) || e.Call?) && Shadows(c, m, k, b, now) && now <= e.at && !Calls(e, k)
    ensures Shadows(c, Apply(c, m, e), k, b, e.at)
  {
    LevelGrows(c, b, now, e.at);
    if e.Tick? && k in m && Idle(c, m[k], e.at) {
      AccruedMonotone(c.rps, c.ttl, e.at - b.last);
      assert Level(c, b, e.at) == c.burst as real;
    }
    hide Take, Level;
  }

  lemma {:induction false} ShadowsRun(c: Config, m: Clients, es: seq<Event>, k: string, b: Bucket, now: real)
    requires Valid(c) && (Refills(c) || CallsOnly(es)) && c.burst >= 1 && Shadows(c, m, k, b, now) && Timed(es, now)
    ensures DecisionsFor(c, m, es, k) == Solo(c, b, CallTimes(es, k))
    decreases es
  {
    hide Level, Take, Reserve, Refills, Shadows, EvictStep, AllowStep;
    if es != [] {
      var e, rest := es[0], es[1..];
      if Calls(e, k) {
        ShadowsOwnCall(c, m, k, b, now, e.at);
        ShadowsRun(c, Apply(c, m, e), rest, k, Take(c, b, e.at).1, e.at);
        SoloUnfolds(c, b, e.at, CallTimes(rest, k));
      } else {
        ShadowsOther(c, m, k, b, now, e);
        ShadowsRun(c, Apply(c, m, e), rest, k, b, e.at);
      }
    }
  }

  lemma {:induction false} NoBurstNoTokens(c: Config, m: Clients, es: seq<Event>, k: string, b: Bucket)
    requires Valid(c) && c.burst < 1
    ensures DecisionsFor(c, m, es, k) == Solo(c, b, CallTimes(es, k))
    decreases es
  {
    if es != [] {
      NoBurstNoTokens(c, Apply(c, m, es[0]), es[1..], k, b);
      if Calls(es[0], k) {
        SoloUnfolds(c, b, es[0].at, CallTimes(es[1..], k));
      }
    }
  }

  /** Eviction is invisible: in every run, whatever the other keys and the janitor do, a key gets
      the decisions of one private, never-evicted bucket that starts full. */
  lemma Transparency(c: Config, es: seq<Event>, k: string)
    requires Valid(c) && Refills(c) && Timed(es, 0.0)
    ensures DecisionsFor(c, map[], es, k) == Solo(c, Fresh(c), CallTimes(es, k))
  {
    if c.burst < 1 {
      NoBurstNoTokens(c, map[], es, k, Fresh(c));
    } else {
      FreshIsFull(c, 0.0);
      ShadowsRun(c, map[], es, k, Fresh(c), 0.0);
    }
  }
}
