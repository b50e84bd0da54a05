/** NewRouter of internal/adapter/http/router.go, against Huma's rule that registering an operation
    snapshots the middleware stack of that moment. */
module Router {
  import opened Wrappers
  import opened Entities
  import opened TokenBucket
  import opened RateLimiter
  import opened LimiterBounds
  import opened LimiterRetry
  import opened Authorization
  import opened ApiKeys
  import opened TodoAuthz

  datatype Layer = SpanNamer | RateLimit | Authenticate | Authorize

  datatype Operation = Operation(id: string, decl: Declaration)

  /** A registered operation with the stack it was registered under. */
  datatype Mounted = Mounted(op: Operation, chain: seq<Layer>)

  class Api {
    var stack: seq<Layer>
    var mounted: seq<Mounted>

    constructor ()
      ensures stack == [] && mounted == []
    {
      stack, mounted := [], [];
    }

    method UseMiddleware(layers: seq<Layer>)
      modifies this`stack
      ensures stack == old(stack) + layers
    {
      stack := stack + layers;
    }

    method Register(op: Operation)
      modifies this`mounted
      ensures mounted == old(mounted) + [Mounted(op, stack)]
    {
      mounted := mounted + [Mounted(op, stack)];
    }
  }

  /** The optional installers: nil, or a middleware whose switch is on or off. */
  datatype Deps = Deps(tracing: bool, rateLimit: Option<bool>, authz: Option<bool>, ops: seq<Operation>)

  function When(on: bool, layers: seq<Layer>): seq<Layer> {
    if on then layers else []
  }

  /** The stack every operation of the router runs under. */
  function Chain(deps: Deps): seq<Layer> {
    When(deps.tracing, [SpanNamer])
    + When(deps.rateLimit == Some(true), [RateLimit])
    + When(deps.authz == Some(true), [Authenticate, Authorize])
  }

  /** The order the layers run in. */
  function Rank(l: Layer): nat {
    match l
    case SpanNamer => 0
    case RateLimit => 1
    case Authenticate => 2
    case Authorize => 3
  }

  /** Each layer is there exactly when its own switch is on, whatever the others are, at most once, and in
      the order span, limit, authenticate, authorize. */
  predicate Installed(deps: Deps, chain: seq<Layer>) {
    && (SpanNamer in chain <==> deps.tracing)
    && (RateLimit in chain <==> deps.rateLimit == Some(true))
    && (Authenticate in chain <==> deps.authz == Some(true))
    && (Authorize in chain <==> deps.authz == Some(true))
    && forall i, j :: 0 <= i < j < |chain| ==> Rank(chain[i]) < Rank(chain[j])
  }

  /** Installs, then registers: every operation, in order, is snapshotted with the whole chain. */
  method NewRouter(deps: Deps) returns (api: Api)
    ensures fresh(api)
    ensures forall i :: 0 <= i < |deps.ops| ==> i < |api.mounted| && Installed(deps, api.mounted[i].chain)
    ensures |api.mounted| == |deps.ops|
    ensures forall i :: 0 <= i < |deps.ops| ==> api.mounted[i] == Mounted(deps.ops[i], Chain(deps))
  {
    hide Installed;
    api := new Api();
    if deps.tracing {
      api.UseMiddleware([SpanNamer]);
    }
    assert api.stack == When(deps.tracing, [SpanNamer]);
    if deps.rateLimit.Some? && deps.rateLimit.value {
      api.UseMiddleware([RateLimit]);
    }
    assert api.stack == When(deps.tracing, [SpanNamer]) + When(deps.rateLimit == Some(true), [RateLimit]);
    if deps.authz.Some? && deps.authz.value {
      api.UseMiddleware([Authenticate, Authorize]);
    }
    assert api.stack == Chain(deps);
    hide Chain;
    ChainIsInstalled(deps);
    for i := 0 to |deps.ops|
      invariant api.stack == Chain(deps) && |api.mounted| == i
      invariant forall j :: 0 <= j < i ==> api.mounted[j] == Mounted(deps.ops[j], Chain(deps))
    {
      api.Register(deps.ops[i]);
    }
  }

  lemma ChainIsInstalled(deps: Deps)
    ensures Installed(deps, Chain(deps))
  {
  }

  // ----- serving -----

  /** Where a request ends; a throttled one may be told when to come back. */
  datatype End = Ran(principal: Principal) | Rejected(status: int, retryAfter: Option<int>)

  /** What a request touches on the way. */
  datatype Touch = Limiter | CredentialStore | PolicyEngine

  /** How a request ended, what it touched, and the limiter's map afterwards. */
  datatype Served = Served(end: End, touched: seq<Touch>, clients: Clients)

  const TOO_MANY_REQUESTS := 429

  /** One request as the layers see it: its rate-limit key, if one can be derived, the instant the limiter
      sees it, whether the limiter fails to answer, and what authentication and authorization read. */
  datatype Incoming = Incoming(key: Result<string, string>, at: real, limiterDown: bool,
    keys: KeyStore, headers: Headers, engine: Engine, params: map<string, string>)

  ghost predicate Evaluates(call: Incoming) { TotalPolicies(call.engine.policies) }

  ghost function ServeChain(chain: seq<Layer>, c: Config, m: Clients, decl: Declaration, call: Incoming, p: Principal): Served
    requires Valid(c) && Evaluates(call)
    decreases chain
  {
    if chain == [] then Served(Ran(p), [], m)
    else match chain[0]
      case SpanNamer => ServeChain(chain[1..], c, m, decl, call, p)
      case RateLimit =>
        var (verdict, m') := LimitSpec(c, m, call.key, call.at, call.limiterDown);
        var touched := if call.key.Ok? then [Limiter] else [];
        (match verdict
         case TooManyRequests(retryAfter) => Served(Rejected(TOO_MANY_REQUESTS, retryAfter), touched, m')
         case Next =>
           var rest := ServeChain(chain[1..], c, m', decl, call, p);
           rest.(touched := touched + rest.touched))
      case Authenticate =>
        (match AuthenticateSpec(call.keys, call.headers)
         case Err(_) => Served(Rejected(UNAUTHORIZED, None), [CredentialStore], m)
         case Ok(caller) =>
           var rest := ServeChain(chain[1..], c, m, decl, call, caller);
           rest.(touched := [CredentialStore] + rest.touched))
      case Authorize =>
        match AuthorizeSpec(call.engine, p, decl, call.params).0
        case Problem(status) => Served(Rejected(status, None), [PolicyEngine], m)
        case Handler(caller) =>
          var rest := ServeChain(chain[1..], c, m, decl, call, caller);
          rest.(touched := [PolicyEngine] + rest.touched)
  }

  ghost function EndOf(r: Response): End {
    match r
    case Handler(p) => Ran(p)
    case Problem(status) => Rejected(status, None)
  }

  /** The layers after the limiter. */
  function Guard(deps: Deps): seq<Layer> {
    When(deps.authz == Some(true), [Authenticate, Authorize])
  }

  /** They never touch the limiter, and with authorization on they end as Serve does. */
  lemma GuardEnds(deps: Deps, c: Config, m: Clients, decl: Declaration, call: Incoming)
    requires Valid(c) && Evaluates(call)
    ensures ServeChain(Guard(deps), c, m, decl, call, ANONYMOUS).clients == m
    ensures deps.authz == Some(true) ==>
      ServeChain(Guard(deps), c, m, decl, call, ANONYMOUS).end
        == EndOf(Serve(call.engine, call.keys, call.headers, decl, call.params).0)
  {
    hide AuthorizeSpec, AuthenticateSpec;
    assert [Authenticate, Authorize][1..] == [Authorize] && [Authorize][1..] == [];
  }

  /** With the limiter on, its verdict comes first, whatever else is installed. */
  lemma LimiterFirst(deps: Deps, c: Config, m: Clients, decl: Declaration, call: Incoming)
    requires Valid(c) && Evaluates(call) && deps.rateLimit == Some(true)
    ensures var served := ServeChain(Chain(deps), c, m, decl, call, ANONYMOUS);
      var (verdict, m') := LimitSpec(c, m, call.key, call.at, call.limiterDown);
      && served.clients == m'
      && (verdict.TooManyRequests? ==>
            served.end == Rejected(TOO_MANY_REQUESTS, verdict.retryAfter) && served.touched == [Limiter])
      && (verdict.Next? ==> served.end == ServeChain(Guard(deps), c, m', decl, call, ANONYMOUS).end)
  {
    var limited := [RateLimit] + Guard(deps);
    assert limited[1..] == Guard(deps);
    if deps.tracing {
      assert Chain(deps) == [SpanNamer] + limited;
      assert ([SpanNamer] + limited)[1..] == limited;
    } else {
      assert Chain(deps) == limited;
    }
    GuardEnds(deps, c, LimitSpec(c, m, call.key, call.at, call.limiterDown).1, decl, call);
    hide AuthorizeSpec, AuthenticateSpec, Serve, Chain, Guard, AllowStep;
    var served := ServeChain(limited, c, m, decl, call, ANONYMOUS);
  }

  /** With the limiter off its map is left alone, and a request ends where authentication and authorization
      put it, or in the handler as anonymous when they are off too. */
  lemma WithoutLimiter(deps: Deps, c: Config, m: Clients, decl: Declaration, call: Incoming)
    requires Valid(c) && Evaluates(call) && deps.rateLimit != Some(true)
    ensures var served := ServeChain(Chain(deps), c, m, decl, call, ANONYMOUS);
      && served.clients == m
      && (deps.authz == Some(true) ==>
            served.end == EndOf(Serve(call.engine, call.keys, call.headers, decl, call.params).0))
      && (deps.authz != Some(true) ==> served.end == Ran(ANONYMOUS))
      && (deps.authz == Some(true) && decl == Undeclared ==> served.end.Rejected?)
  {
    GuardEnds(deps, c, m, decl, call);
    ServeStatuses(call.engine, call.keys, call.headers, decl, call.params);
    if deps.tracing {
      assert Chain(deps) == [SpanNamer] + Guard(deps);
      assert ([SpanNamer] + Guard(deps))[1..] == Guard(deps);
    } else {
      assert Chain(deps) == Guard(deps);
    }
    hide AuthorizeSpec, AuthenticateSpec, Serve, Chain;
  }

  /** Authentication and authorization never answer 429. */
  lemma ServeStatuses(engine: Engine, keys: KeyStore, h: Headers, decl: Declaration, params: map<string, string>)
    requires TotalPolicies(engine.policies)
    ensures var r := Serve(engine, keys, h, decl, params).0;
      && (r.Problem? ==> r.status in {401, 403, 500})
      && (decl == Undeclared ==> r.Problem?)
  {
    hide AuthenticateSpec, TotalPolicies, GetterEnv;
  }

  /** With both features on, whatever the tracing and the operations mounted: a request is answered 429
      exactly when the limiter denies it, with the limiter's wait rounded up and nothing but the limiter
      touched; any other ends exactly where authentication and authorization put it; and an undeclared
      operation never runs, for any caller. */
  lemma GuardedOperations(deps: Deps, c: Config, m: Clients, decl: Declaration, call: Incoming)
    requires Valid(c) && Evaluates(call) && deps.rateLimit == Some(true) && deps.authz == Some(true)
    ensures var served := ServeChain(Chain(deps), c, m, decl, call, ANONYMOUS);
      var denied := call.key.Ok? && !call.limiterDown && !AllowStep(c, m, call.key.value, call.at).0.allowed;
      && (served.end.Rejected? && served.end.status == 429 <==> denied)
      && (denied ==> served.touched == [Limiter])
      && (served.end.Rejected? && served.end.retryAfter.Some? ==>
            && denied
            && var wait, told := AllowStep(c, m, call.key.value, call.at).0.retryAfter, served.end.retryAfter.value;
               told >= 1 && wait <= told as real < wait + 1.0)
      && (!denied ==> served.end == EndOf(Serve(call.engine, call.keys, call.headers, decl, call.params).0))
      && (decl == Undeclared ==> served.end.Rejected?)
      && served.clients == LimitSpec(c, m, call.key, call.at, call.limiterDown).1
  {
    LimiterFirst(deps, c, m, decl, call);
    GuardEnds(deps, c, LimitSpec(c, m, call.key, call.at, call.limiterDown).1, decl, call);
    ServeStatuses(call.engine, call.keys, call.headers, decl, call.params);
    hide ServeChain, Serve, Chain, Guard, AllowStep;
  }

  // ----- whole runs -----

  /** What reaches the server: requests for an operation, and the limiter's janitor. */
  datatype Arrival = Request(decl: Declaration, call: Incoming) | Sweep(at: real)

  ghost predicate Serviceable(es: seq<Arrival>) {
    forall i :: 0 <= i < |es| ==> es[i].Request? ==> Evaluates(es[i].call)
  }

  /** The limiter sees this request under key k. */
  predicate Limits(e: Arrival, k: string) {
    e.Request? && e.call.key == Ok(k) && !e.call.limiterDown
  }

  /** The map after an arrival. */
  ghost function After(deps: Deps, c: Config, m: Clients, e: Arrival): Clients
    requires Valid(c) && (e.Request? ==> Evaluates(e.call))
  {
    match e
    case Request(decl, call) => ServeChain(Chain(deps), c, m, decl, call, ANONYMOUS).clients
    case Sweep(at) => EvictStep(c, m, at)
  }

  /** How many handlers ran for key k's requests in the window [t0, t1]. */
  ghost function HandledIn(deps: Deps, c: Config, m: Clients, es: seq<Arrival>, k: string, t0: real, t1: real): nat
    requires Valid(c) && Serviceable(es)
    decreases es
  {
    if es == [] then 0
    else
      var e := es[0];
      HandledIn(deps, c, After(deps, c, m, e), es[1..], k, t0, t1) +
      if Limits(e, k) && t0 <= e.call.at <= t1 && ServeChain(Chain(deps), c, m, e.decl, e.call, ANONYMOUS).end.Ran?
      then 1 else 0
  }

  /** What the limiter sees of the arrivals. */
  function Seen(e: Arrival): seq<Event> {
    match e
    case Sweep(at) => [Tick(at)]
    case Request(_, call) => if call.key.Ok? && !call.limiterDown then [Event.Call(call.key.value, call.at)] else []
  }

  function Events(es: seq<Arrival>): seq<Event> {
    if es == [] then [] else Seen(es[0]) + Events(es[1..])
  }

  lemma AfterIsApply(deps: Deps, c: Config, m: Clients, e: Arrival)
    requires Valid(c) && (e.Request? ==> Evaluates(e.call)) && deps.rateLimit == Some(true)
    ensures After(deps, c, m, e) == if Seen(e) == [] then m else Apply(c, m, Seen(e)[0])
  {
    if e.Request? { LimiterFirst(deps, c, m, e.decl, e.call); }
    hide ServeChain, Chain, Evaluates, AllowStep;
  }

  lemma {:induction false} HandledIsAllowed(deps: Deps, c: Config, m: Clients, es: seq<Arrival>, k: string, t0: real, t1: real)
    requires Valid(c) && Serviceable(es) && deps.rateLimit == Some(true)
    ensures HandledIn(deps, c, m, es, k, t0, t1) <= AllowedIn(c, m, Events(es), k, t0, t1)
    decreases es
  {
    if es != [] {
      var e, rest := es[0], es[1..];
      AfterIsApply(deps, c, m, e);
      HandledIsAllowed(deps, c, After(deps, c, m, e), rest, k, t0, t1);
      if e.Request? { LimiterFirst(deps, c, m, e.decl, e.call); }
      hide ServeChain, Chain, Evaluates, AllowStep, EvictStep, After;
      if Seen(e) == [] {
        assert Events(es) == Events(rest);
      } else {
        assert Events(es)[0] == Seen(e)[0] && Events(es)[1..] == Events(rest);
      }
    }
  }

  /** In every run of requests for any operations, with any credentials and policies, the handlers that
      run for one rate-limit key in a window are at most one burst plus the window's length at the
      limiter's effective rate. */
  lemma HandlerRateBound(deps: Deps, c: Config, es: seq<Arrival>, k: string, t0: real, t1: real)
    requires Valid(c) && Serviceable(es) && deps.rateLimit == Some(true) && Timed(Events(es), 0.0) && t0 <= t1
    ensures var n := HandledIn(deps, c, map[], es, k, t0, t1);
      if c.burst < 1 then n == 0 else n as real <= c.burst as real + EffectiveRate(c) * (t1 - t0)
  {
    hide HandledIn, AllowedIn, EffectiveRate, Events, Timed;
    HandledIsAllowed(deps, c, map[], es, k, t0, t1);
    if c.burst < 1 {
      NoBurstDeniesAll(c, map[], Events(es), k, t0, t1);
    } else {
      RateBound(c, Events(es), k, t0, t1);
    }
  }
}
