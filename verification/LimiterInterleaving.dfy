/** Allow is two steps: the locked lookup hands out the bucket, and the reservation happens later, at
    its own clock reading, on the bucket it was handed.  evictIdle is two steps too: it reads its
    cutoff before it takes the lock.  This machine interleaves them, for any number of requests, and
    asks when every reservation still acts on the bucket the map holds (internal/ratelimit/memory.go). */
module LimiterInterleaving {
  import opened Wrappers
  import opened TokenBucket

  /** A map entry: which bucket object it points to, and when its key was last seen. */
  datatype Slot = Slot(bucket: nat, lastSeen: real)

  /** A request between its lookup and its reservation. */
  datatype Pending = Pending(key: string, bucket: nat, since: real)

  /** A reservation that has been made. */
  datatype Outcome = Outcome(key: string, at: real, decision: Decision)

  datatype State = State(
    now: real,
    clients: map<string, Slot>,
    created: nat,
    buckets: map<nat, Bucket>,
    pending: map<nat, Pending>,
    cutoff: Option<real>,
    log: seq<Outcome>)

  const INITIAL := State(0.0, map[], 0, map[], map[], None, [])

  datatype Step =
    | Wait(until: real)
    | Lookup(request: nat, key: string)
    | Reserve(request: nat)
    | ReadCutoff
    | Sweep

  /** Every pending request reserves within `slack` of its lookup, so time cannot pass beyond that. */
  predicate Enabled(slack: real, s: State, step: Step) {
    match step
    case Wait(until) =>
      s.now <= until && forall r :: r in s.pending ==> until <= s.pending[r].since + slack
    case Lookup(request, _) => request !in s.pending
    case Reserve(request) => request in s.pending
    case ReadCutoff => true
    case Sweep => s.cutoff.Some?
  }

  /** The bucket object; each is full when it is made. */
  function BucketAt(c: Config, s: State, i: nat): Bucket {
    if i in s.buckets then s.buckets[i] else Fresh(c)
  }

  function LookupStep(c: Config, s: State, request: nat, key: string): State {
    if key in s.clients then
      var bucket := s.clients[key].bucket;
      s.(clients := s.clients[key := Slot(bucket, s.now)],
         pending := s.pending[request := Pending(key, bucket, s.now)])
    else
      s.(clients := s.clients[key := Slot(s.created, s.now)],
         created := s.created + 1,
         buckets := s.buckets[s.created := Fresh(c)],
         pending := s.pending[request := Pending(key, s.created, s.now)])
  }

  function ReserveStep(c: Config, s: State, request: nat): State
    requires Valid(c) && request in s.pending
  {
    var p := s.pending[request];
    var (d, b) := Take(c, BucketAt(c, s, p.bucket), s.now);
    s.(pending := s.pending - {request},
       buckets := s.buckets[p.bucket := b],
       log := s.log + [Outcome(p.key, s.now, d)])
  }

  function Apply(c: Config, slack: real, s: State, step: Step): State
    requires Valid(c) && Enabled(slack, s, step)
  {
    match step
    case Wait(until) => s.(now := until)
    case Lookup(request, key) => LookupStep(c, s, request, key)
    case Reserve(request) => ReserveStep(c, s, request)
    case ReadCutoff => s.(cutoff := Some(s.now - c.ttl))
    case Sweep =>
      s.(clients := map k | k in s.clients && !(s.clients[k].lastSeen < s.cutoff.value) :: s.clients[k],
         cutoff := None)
  }

  predicate Runs(c: Config, slack: real, s: State, steps: seq<Step>)
    requires Valid(c)
    decreases steps
  {
    steps == [] || (Enabled(slack, s, steps[0]) && Runs(c, slack, Apply(c, slack, s, steps[0]), steps[1..]))
  }

  function Final(c: Config, slack: real, s: State, steps: seq<Step>): State
    requires Valid(c) && Runs(c, slack, s, steps)
    decreases steps
  {
    if steps == [] then s else Final(c, slack, Apply(c, slack, s, steps[0]), steps[1..])
  }

  /** Every reservation still to come acts on the bucket the map holds for its key. */
  predicate Attached(s: State) {
    forall r :: r in s.pending ==>
      s.pending[r].key in s.clients && s.clients[s.pending[r].key].bucket == s.pending[r].bucket
  }

  predicate Inv(c: Config, slack: real, s: State) {
    && Attached(s)
    && (forall r :: r in s.pending ==>
          && s.pending[r].since <= s.now <= s.pending[r].since + slack
          && s.pending[r].since <= s.clients[s.pending[r].key].lastSeen)
    && (forall k :: k in s.clients ==> s.clients[k].lastSeen <= s.now)
    && (s.cutoff.Some? ==> s.cutoff.value <= s.now - c.ttl)
  }

  lemma StepKeepsInv(c: Config, slack: real, s: State, step: Step)
    requires Valid(c) && 0.0 <= slack <= c.ttl && Inv(c, slack, s) && Enabled(slack, s, step)
    ensures Inv(c, slack, Apply(c, slack, s, step))
  {
    hide Take, BucketAt;
  }

  lemma {:induction false} RunKeepsInv(c: Config, slack: real, s: State, steps: seq<Step>)
    requires Valid(c) && 0.0 <= slack <= c.ttl && Inv(c, slack, s) && Runs(c, slack, s, steps)
    ensures Inv(c, slack, Final(c, slack, s, steps))
    decreases steps
  {
    hide Inv, Apply, Enabled;
    if steps != [] {
      StepKeepsInv(c, slack, s, steps[0]);
      RunKeepsInv(c, slack, Apply(c, slack, s, steps[0]), steps[1..]);
    }
  }

  lemma RunUnfolds(c: Config, slack: real, s: State, step: Step, rest: seq<Step>)
    requires Valid(c) && Enabled(slack, s, step) && Runs(c, slack, Apply(c, slack, s, step), rest)
    ensures Runs(c, slack, s, [step] + rest)
    ensures Final(c, slack, s, [step] + rest) == Final(c, slack, Apply(c, slack, s, step), rest)
  {
    hide Apply, Enabled;
    assert ([step] + rest)[1..] == rest;
  }

  /** One request sleeps past the TTL between lookup and reservation. */
  function Oversleep(slack: real): seq<Step> {
    [Lookup(0, "")] + ([Wait(slack)] + ([ReadCutoff] + ([Sweep] + [])))
  }

  lemma OversleepDetaches(c: Config, slack: real)
    requires Valid(c) && c.ttl < slack
    ensures Runs(c, slack, INITIAL, Oversleep(slack))
    ensures !Attached(Final(c, slack, INITIAL, Oversleep(slack)))
  {
    var s1 := Apply(c, slack, INITIAL, Lookup(0, ""));
    var s2 := Apply(c, slack, s1, Wait(slack));
    var s3 := Apply(c, slack, s2, ReadCutoff);
    var s4 := Apply(c, slack, s3, Sweep);
    assert s1.pending[0] == Pending("", 0, 0.0) && s1.clients[""] == Slot(0, 0.0);
    assert "" !in s4.clients && 0 in s4.pending && s4.pending[0].key == "";
    hide Apply;
    RunUnfolds(c, slack, s3, Sweep, []);
    RunUnfolds(c, slack, s2, ReadCutoff, [Sweep] + []);
    RunUnfolds(c, slack, s1, Wait(slack), [ReadCutoff] + ([Sweep] + []));
    RunUnfolds(c, slack, INITIAL, Lookup(0, ""), [Wait(slack)] + ([ReadCutoff] + ([Sweep] + [])));
  }

  /** No interleaving lets a reservation act on an evicted bucket, exactly when requests reserve
      within one idle TTL of their lookup. */
  lemma ReservationsStayAttachedExactly(c: Config, slack: real)
    requires Valid(c) && slack >= 0.0
    ensures (forall steps :: Runs(c, slack, INITIAL, steps) ==> Attached(Final(c, slack, INITIAL, steps)))
      <==> slack <= c.ttl
  {
    if slack <= c.ttl {
      forall steps | Runs(c, slack, INITIAL, steps)
        ensures Attached(Final(c, slack, INITIAL, steps))
      {
        RunKeepsInv(c, slack, INITIAL, steps);
      }
    } else {
      OversleepDetaches(c, slack);
    }
  }
}
