/** The deny-by-default pipeline of internal/authz/middleware.go, and the declarations of
    internal/authz/declare.go it reads. */
module Authorization {
  import opened Wrappers
  import opened Text
  import opened Entities
  import opened Ownership
  import opened Routing
  import opened Query
  import opened Cedar
  import opened EntityGetter

  /** What an operation's metadata says. */
  datatype Declaration = Undeclared | Public | Require(action: Uid, idParam: string)

  datatype Outcome = DecisionError | DecisionAllow | DecisionDeny

  /** Either the handler runs, for this principal, or a problem response is written. */
  datatype Response = Handler(principal: Principal) | Problem(status: int)

  const UNAUTHORIZED := 401
  const FORBIDDEN := 403
  const INTERNAL_ERROR := 500

  /** The merged policy set as an evaluator: one query tree per request. */
  type Policies = Request -> Query<Decision>

  ghost predicate TotalPolicies(policies: Policies) {
    forall req :: Total(policies(req))
  }

  /** The authorizer New returned, and the backends its slices read. */
  datatype Engine = Engine(policies: Policies, contributions: seq<Contribution>, world: World)

  function PascalCase(s: string): string {
    if s != "" && 'a' <= s[0] <= 'z' then [s[0] - 32 as char] + s[1..] else s
  }

  /** The type-level resource of an action "<resource>:<verb>". */
  function ResourceType(action: Uid): Uid {
    match CutBefore(action.id, ':')
    case None => Uid("", "")
    case Some(resource) => if resource == "" then Uid("", "") else Uid(PascalCase(resource), "")
  }

  function Param(params: map<string, string>, name: string): string {
    if name in params then params[name] else ""
  }

  function ResourceFor(action: Uid, idParam: string, params: map<string, string>): Uid {
    var kind := ResourceType(action);
    if idParam == "" || Param(params, idParam) == "" then kind
    else Uid(kind.kind, Param(params, idParam))
  }

  /** The resource of "<resource>:<verb>": its type is the resource part with its first letter upper-cased,
      its id the bound path parameter; an action of another form has no type. */
  lemma ResourceMeaning(action: Uid, resource: string, verb: string, idParam: string, params: map<string, string>)
    ensures ResourceFor(action, idParam, params).id ==
      (if idParam != "" && idParam in params then params[idParam] else "")
    ensures action.id == resource + ":" + verb && ':' !in resource && resource != "" ==>
      ResourceFor(action, idParam, params).kind ==
        (if 'a' <= resource[0] <= 'z' then [(resource[0] as int - 32) as char] else [resource[0]]) + resource[1..]
    ensures ':' !in action.id || (action.id != "" && action.id[0] == ':') ==> ResourceFor(action, idParam, params).kind == ""
  {
    if action.id == resource + ":" + verb && ':' !in resource {
      assert action.id == resource + [':'] + verb;
      CutBeforeMeaning(resource, ':', verb);
    }
    if ':' !in action.id { CutBeforeMeaning(action.id, ':', ""); }
  }

  function RequestFor(p: Principal, action: Uid, idParam: string, params: map<string, string>): Request {
    Request(p.uid, action, ResourceFor(action, idParam, params), p.claims)
  }

  function GetterEnv(engine: Engine, p: Principal): Env {
    Env(engine.world, p, RouteTable(p, engine.contributions))
  }

  function OutcomeOf(decision: Decision, firstErr: Option<Error>): Outcome {
    if firstErr.Some? then DecisionError else if decision == Allow then DecisionAllow else DecisionDeny
  }

  /** A getter evaluates the request; a recorded load failure beats any decision. */
  method Evaluate(engine: Engine, p: Principal, action: Uid, idParam: string, params: map<string, string>)
      returns (outcome: Outcome, loads: seq<Load>)
    requires TotalPolicies(engine.policies)
    ensures var req := Request(p.uid, action, ResourceFor(action, idParam, params), p.claims);
      var (decision, memo) := Run(GetterEnv(engine, p), EMPTY, engine.policies(req));
      && (outcome == DecisionError <==> memo.firstErr.Some?)
      && (outcome == DecisionAllow <==> memo.firstErr == None && decision == Allow)
    ensures var (decision, memo) := Run(GetterEnv(engine, p), EMPTY, engine.policies(RequestFor(p, action, idParam, params)));
      outcome == OutcomeOf(decision, memo.firstErr) && loads == memo.loads
  {
    var byType := IndexResolvers(p, engine.contributions);
    var getter := new Getter(engine.world, p, byType);
    var decision := getter.Authorize(engine.policies(RequestFor(p, action, idParam, params)));
    loads := getter.loads;
    if getter.firstErr.Some? {
      return DecisionError, loads;
    }
    if decision == Allow {
      return DecisionAllow, loads;
    }
    return DecisionDeny, loads;
  }

  function Denied(p: Principal): Response {
    Problem(if IsAnonymous(p) then UNAUTHORIZED else FORBIDDEN)
  }

  /** The authorize middleware. */
  ghost function AuthorizeSpec(engine: Engine, p: Principal, decl: Declaration, params: map<string, string>): (Response, seq<Load>)
    requires TotalPolicies(engine.policies)
  {
    match decl
    case Undeclared => (Problem(FORBIDDEN), [])
    case Public => (Handler(p), [])
    case Require(action, idParam) =>
      var (decision, memo) := Run(GetterEnv(engine, p), EMPTY, engine.policies(RequestFor(p, action, idParam, params)));
      (match OutcomeOf(decision, memo.firstErr)
       case DecisionAllow => Handler(p)
       case DecisionDeny => Denied(p)
       case DecisionError => Problem(INTERNAL_ERROR),
       memo.loads)
  }

  method Authorize(engine: Engine, p: Principal, decl: Declaration, params: map<string, string>)
      returns (response: Response, loads: seq<Load>)
    requires TotalPolicies(engine.policies)
    ensures decl == Undeclared ==> response == Problem(403) && loads == []
    ensures decl == Public ==> response == Handler(p) && loads == []
    ensures response.Problem? ==> response.status in {401, 403, 500}
    ensures response.Handler? ==> response.principal == p
    ensures (response, loads) == AuthorizeSpec(engine, p, decl, params)
  {
    match decl {
      case Undeclared => return Problem(FORBIDDEN), [];
      case Public => return Handler(p), [];
      case Require(action, idParam) =>
        var outcome;
        outcome, loads := Evaluate(engine, p, action, idParam, params);
        match outcome {
          case DecisionAllow => response := Handler(p);
          case DecisionDeny => response := Denied(p);
          case DecisionError => response := Problem(INTERNAL_ERROR);
        }
    }
  }

  /** For every policy evaluator and every store in which any load may fail: a required operation's
      handler runs exactly when no load failed and the evaluator, uncached and on a store that never
      fails, allows; a failed load is always a 500, and a true denial a 401 or 403. */
  lemma FailsClosed(engine: Engine, p: Principal, action: Uid, idParam: string, params: map<string, string>, truth: Truth)
    requires TotalPolicies(engine.policies) && Honest(engine.world, truth)
    ensures
      var req := Request(p.uid, action, ResourceFor(action, idParam, params), p.claims);
      var env := GetterEnv(engine, p);
      var failed := SomeLoadFailed(env, Run(env, EMPTY, engine.policies(req)).1);
      var verdict := Decide(engine.policies(req), TrueFacts(p, env.table, truth));
      AuthorizeSpec(engine, p, Require(action, idParam), params).0 ==
        if failed then Problem(500)
        else if verdict == Allow then Handler(p)
        else if p.uid.kind == "Anonymous" then Problem(401)
        else Problem(403)
  {
    var env := GetterEnv(engine, p);
    DecisionIsTrueOrError(env, engine.policies(RequestFor(p, action, idParam, params)), truth);
  }

  /** What the perfect store of FailsClosed says, for an engine that New accepted: the principal from
      its claims, every other uid from the slice that declares its type, and nothing else. */
  lemma TrueFactsMeaning(cs: seq<Contribution>, p: Principal, truth: Truth, uid: Uid)
    requires WellOwned(cs)
    ensures var facts := TrueFacts(p, RouteTable(p, [PRINCIPAL_CONTRIBUTION] + cs), truth);
      && (uid == p.uid ==> facts(uid) == Some(PrincipalEntity(p)) && DescribesPrincipal(PrincipalEntity(p), p))
      && (uid != p.uid ==> forall b :: Declares(cs, b, uid.kind) ==> facts(uid) == truth(b, uid))
      && (uid != p.uid && !(exists b :: Declares(cs, b, uid.kind)) ==> facts(uid) == None)
  {
    RoutingMeaning(cs, p, uid);
    PrincipalEntityMeaning(p);
    hide RouteTable, SourceOf, Declares;
    var src := SourceOf(RouteTable(p, [PRINCIPAL_CONTRIBUTION] + cs), p, uid);
    if src.FromSlice? && uid != p.uid { assert Declares(cs, src.backend, uid.kind); }
  }
}
