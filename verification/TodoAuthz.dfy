/** The todo slice's part of authorization: its fact resolver (internal/todo/authz/facts.go), the
    two shipped policy files, and the decision they give end to end. */
module TodoAuthz {
  import opened Wrappers
  import opened Text
  import opened Entities
  import opened Ownership
  import opened Routing
  import opened Query
  import opened Cedar
  import opened Ancestry
  import opened PolicyMerge
  import opened EntityGetter
  import opened Authorization
  import opened ApiKeys
  import opened Todos

  const TODO_TYPE := "Todo"
  const ACTION_TYPE := "Action"
  const TODO_BACKEND := 0

  const TODO_CONTRIBUTION := Contribution([TODO_TYPE], SliceFactory(TODO_BACKEND))

  // ----- facts.go -----

  /** What Repository.FindByID answers, load by load: the store may change or fail in between. */
  type Finder = (nat, string) -> Result<Todo, TodoError>

  /** A Cedar datetime keeps whole milliseconds, rounded towards the past. */
  function Millis(nanos: int): int { nanos / 1_000_000 }

  /** A todo as a Cedar entity; completedAt only once it is completed. */
  function ToEntity(t: Todo): Entity {
    var attrs := map["id" := Str(t.id), "title" := Str(t.title), "status" := Str(t.status),
                     "createdAt" := Time(Millis(t.createdAt))];
    Entity(Uid(TODO_TYPE, t.id), [],
      if t.completedAt.Some? then attrs["completedAt" := Time(Millis(t.completedAt.value))] else attrs)
  }

  /** The todo as far as a policy can see it. */
  function ToMillis(t: Todo): Todo {
    t.(createdAt := Millis(t.createdAt),
       completedAt := if t.completedAt.Some? then Some(Millis(t.completedAt.value)) else None)
  }

  /** The millisecond an instant falls in. */
  predicate InMilli(v: Value, nanos: int) {
    v.Time? && v.at * 1_000_000 <= nanos < (v.at + 1) * 1_000_000
  }

  /** The entity carries the todo's fields under their names.  A well-formed todo's has a completion time
      exactly once it is completed, and entities tell todos apart exactly when they differ in more than
      the fraction of a millisecond. */
  lemma EntityMeaning(t: Todo, t': Todo)
    ensures ToEntity(t).uid == Uid("Todo", t.id) && ToEntity(t).parents == []
    ensures var a := ToEntity(t).attributes;
      && a.Keys == {"id", "title", "status", "createdAt"} + (if t.completedAt.Some? then {"completedAt"} else {})
      && a["id"] == Str(t.id) && a["title"] == Str(t.title) && a["status"] == Str(t.status)
      && InMilli(a["createdAt"], t.createdAt)
      && (t.completedAt.Some? ==> InMilli(a["completedAt"], t.completedAt.value))
    ensures WellFormed(t) ==> ("completedAt" in ToEntity(t).attributes <==> t.status == COMPLETED)
    ensures ToEntity(t) == ToEntity(t') <==> ToMillis(t) == ToMillis(t')
  {
    assert InMilli(ToEntity(t).attributes["createdAt"], t.createdAt);
    hide Millis, InMilli;
    var a, b := ToEntity(t).attributes, ToEntity(t').attributes;
    if ToEntity(t) == ToEntity(t') {
      assert a["title"] == b["title"] && a["status"] == b["status"] && a["createdAt"] == b["createdAt"];
      assert "completedAt" in a <==> "completedAt" in b;
      if "completedAt" in a { assert a["completedAt"] == b["completedAt"]; }
    }
  }

  /** Not found is a miss; any other failure is a miss that is also recorded. */
  function TodoReply(find: Finder, n: nat, uid: Uid): Reply {
    if uid.kind != TODO_TYPE then Reply(None, [])
    else match find(n, uid.id)
      case Ok(t) => Reply(Some(ToEntity(t)), [])
      case Err(NotFound) => Reply(None, [])
      case Err(_) => Reply(None, ["load failed"])
  }

  function TodoWorld(find: Finder): World {
    (backend, n: nat, uid) => TodoReply(find, n, uid)
  }

  /** The finder reads this store, except when it fails. */
  ghost predicate Reads(find: Finder, store: map<string, Todo>) {
    forall n, id :: find(n, id) ==
      (if find(n, id) == Err(StoreFailure) then Err(StoreFailure)
       else if id in store then Ok(store[id]) else Err(NotFound))
  }

  function TodoTruth(store: map<string, Todo>): Truth {
    (backend, uid: Uid) => if uid.kind == TODO_TYPE && uid.id in store then Some(ToEntity(store[uid.id])) else None
  }

  /** The resolver tells the truth about its store whenever it records nothing, so Authorization.FailsClosed
      applies to it; it records something exactly when a todo's load failed, and not when there is none. */
  lemma ResolverIsHonest(find: Finder, store: map<string, Todo>)
    requires Reads(find, store)
    ensures Honest(TodoWorld(find), TodoTruth(store))
    ensures forall b, n, uid :: TodoWorld(find)(b, n, uid).errors == [] ==>
      TodoWorld(find)(b, n, uid).entity ==
        (if uid.kind == "Todo" && uid.id in store then Some(ToEntity(store[uid.id])) else None)
    ensures forall b, n, uid :: TodoWorld(find)(b, n, uid).errors != [] <==> uid.kind == "Todo" && find(n, uid.id) == Err(StoreFailure)
    ensures forall b, n, uid :: TodoWorld(find)(b, n, uid).errors != [] ==> TodoWorld(find)(b, n, uid).entity == None
  {
    forall b, n, uid | TodoWorld(find)(b, n, uid).errors == []
      ensures TodoWorld(find)(b, n, uid).entity == TodoTruth(store)(b, uid)
    {
      var r := find(n, uid.id);
    }
  }

  // ----- base.cedar and policy.cedar -----

  const TODO_ACTIONS: seq<Uid> := [
    Uid(ACTION_TYPE, "todo:create"), Uid(ACTION_TYPE, "todo:read"),
    Uid(ACTION_TYPE, "todo:update"), Uid(ACTION_TYPE, "todo:list")]

  /** A todo action's resource is the type the fact resolver owns: Todo, or the instance the path names. */
  lemma TodoResource(action: Uid, idParam: string, params: map<string, string>)
    requires action in TODO_ACTIONS
    ensures ResourceFor(action, idParam, params) ==
      Uid(TODO_TYPE, if idParam != "" && idParam in params then params[idParam] else "")
  {
    TodoPrefix(action);
    TodoResourceType(action);
    hide ResourceType;
  }

  lemma TodoPrefix(action: Uid)
    requires action in TODO_ACTIONS
    ensures |action.id| >= 5 && action.id[..5] == "todo:"
  {
    assert "todo:create"[..5] == "todo:" && "todo:read"[..5] == "todo:";
    assert "todo:update"[..5] == "todo:" && "todo:list"[..5] == "todo:";
  }

  lemma TodoResourceType(action: Uid)
    requires |action.id| >= 5 && action.id[..5] == "todo:"
    ensures ResourceType(action) == Uid(TODO_TYPE, "")
  {
    var s := action.id;
    assert s == "todo" + [':'] + s[5..] by { assert s == s[..5] + s[5..]; }
    CutBeforeMeaning("todo", ':', s[5..]);
    assert "todo"[1..] == "odo" && "T" + "odo" == "Todo";
  }

  const ADMIN_POLICY := Policy(Permit, In([Role("admin")]), Any, Any)
  const USER_POLICY := Policy(Permit, In([Role("user")]), In(TODO_ACTIONS), Any)

  /** Some order in which the evaluator walks the two shipped policies. */
  ghost predicate Shipped(walk: seq<Policy>) {
    forall p :: p in walk <==> p == ADMIN_POLICY || p == USER_POLICY
  }

  /** Building the engine from the embedded base policies and the todo slice succeeds, and however the
      merged set is walked, the evaluator meets the two shipped policies and no other. */
  method BuildAuthorizer() returns (r: Result<(map<string, Policy>, seq<Contribution>), NewError>)
    ensures r.Ok? && r.value.1 == [PRINCIPAL_CONTRIBUTION] + [TODO_CONTRIBUTION]
    ensures forall walk :: Walks(walk, r.value.0) ==> Shipped(walk)
  {
    var cs, base, docs := [TODO_CONTRIBUTION], Parsed([ADMIN_POLICY]), [Parsed([USER_POLICY])];
    TodoAloneIsWellOwned();
    r := New(cs, base, docs);
    assert docs[0] in docs;
    forall p ensures p in r.value.0.Values <==> p == ADMIN_POLICY || p == USER_POLICY {
      MergedValues(r.value.0, base, docs, p);
    }
  }

  lemma TodoAloneIsWellOwned()
    ensures Declared([TODO_CONTRIBUTION]) == [TODO_TYPE] && WellOwned([TODO_CONTRIBUTION])
  {
    assert [TODO_CONTRIBUTION][..0] == [];
  }

  ghost function ShippedPolicies(walk: seq<Policy>, fuel: nat): Policies {
    (req: Request) => Evaluation(walk, req, fuel, false, false)
  }

  ghost function ShippedEngine(walk: seq<Policy>, fuel: nat, find: Finder): Engine {
    Engine(ShippedPolicies(walk, fuel), [PRINCIPAL_CONTRIBUTION] + [TODO_CONTRIBUTION], TodoWorld(find))
  }

  lemma ShippedIsTotal(walk: seq<Policy>, fuel: nat)
    ensures TotalPolicies(ShippedPolicies(walk, fuel))
  {
    forall req ensures Total(ShippedPolicies(walk, fuel)(req)) {
      ForbidOverridesPermit(walk, req, fuel, u => None);
    }
  }

  // ----- no todo is loaded -----

  /** Over these facts, the evaluation never asks for an entity of this kind. */
  ghost predicate Avoids<T>(q: Query<T>, facts: Facts, kind: string)
    requires Total(q)
    decreases q
  {
    q.Ask? ==> q.uid.kind != kind && Avoids(q.next[facts(q.uid)], facts, kind)
  }

  predicate NoneOf(us: seq<Uid>, kind: string) {
    forall u :: u in us ==> u.kind != kind
  }

  /** No parent in these facts has this kind. */
  ghost predicate Clear(facts: Facts, kind: string) {
    forall u :: facts(u).Some? ==> NoneOf(facts(u).value.parents, kind)
  }

  lemma {:induction false} SearchAvoids<T>(todo: seq<Uid>, known: set<Uid>, targets: seq<Uid>, fuel: nat,
      yes: Query<T>, no: Query<T>, facts: Facts, kind: string)
    requires Total(yes) && Total(no) && Avoids(yes, facts, kind) && Avoids(no, facts, kind)
    requires NoneOf(todo, kind) && Clear(facts, kind)
    ensures Total(Search(todo, known, targets, fuel, yes, no))
    ensures Avoids(Search(todo, known, targets, fuel, yes, no), facts, kind)
    decreases fuel
  {
    SearchMeaning(todo, known, targets, fuel, yes, no, facts);
    if todo != [] && fuel != 0 {
      var answer := facts(todo[0]);
      var more := if answer.Some? then Unknown(answer.value.parents, known) else [];
      forall u | u in todo[1..] + more ensures u.kind != kind {
        if answer.Some? { UnknownMeaning(answer.value.parents, known); }
      }
      assert answer.None? ==> NoneOf(todo[1..], kind);
      hide Meets, Unknown, Clear, NoneOf;
      if answer.Some? {
        SearchAvoids(todo[1..] + more, known + (set u | u in more), targets, fuel - 1, yes, no, facts, kind);
      } else {
        SearchAvoids(todo[1..], known, targets, fuel - 1, yes, no, facts, kind);
      }
    }
  }

  lemma ScopeAvoids<T>(scope: Scope, uid: Uid, fuel: nat, yes: Query<T>, no: Query<T>, facts: Facts, kind: string)
    requires Total(yes) && Total(no) && Avoids(yes, facts, kind) && Avoids(no, facts, kind)
    requires (scope.Any? || uid.kind != kind) && Clear(facts, kind)
    ensures Total(ScopeQuery(scope, uid, fuel, yes, no))
    ensures Avoids(ScopeQuery(scope, uid, fuel, yes, no), facts, kind)
  {
    ScopeMeaning(scope, uid, fuel, yes, no, facts);
    if scope.In? && uid !in scope.targets {
      SearchAvoids([uid], {uid}, scope.targets, fuel, yes, no, facts, kind);
    }
  }

  lemma {:induction false} EvaluationAvoids(ps: seq<Policy>, req: Request, fuel: nat, permit: bool, forbid: bool,
      facts: Facts, kind: string)
    requires forall p :: p in ps ==> p.resource == Any
    requires req.principal.kind != kind && req.action.kind != kind && Clear(facts, kind)
    ensures Total(Evaluation(ps, req, fuel, permit, forbid))
    ensures Avoids(Evaluation(ps, req, fuel, permit, forbid), facts, kind)
    decreases ps
  {
    EvaluationFrom(ps, req, fuel, permit, forbid, facts);
    if ps != [] {
      var p, rest := ps[0], ps[1..];
      var permit', forbid' := permit || p.effect.Permit?, forbid || p.effect.Forbid?;
      EvaluationAvoids(rest, req, fuel, permit', forbid', facts, kind);
      EvaluationAvoids(rest, req, fuel, permit, forbid, facts, kind);
      hide Avoids, Total, Clear, ScopeQuery;
      var yes, no := Evaluation(rest, req, fuel, permit', forbid'), Evaluation(rest, req, fuel, permit, forbid);
      ScopeAvoids(p.resource, req.resource, fuel, yes, no, facts, kind);
      var inner := ScopeQuery(p.resource, req.resource, fuel, yes, no);
      ScopeAvoids(p.action, req.action, fuel, inner, no, facts, kind);
      ScopeAvoids(p.principal, req.principal, fuel, ScopeQuery(p.action, req.action, fuel, inner, no), no, facts, kind);
    }
  }

  /** An evaluation that avoids the only owned kind loads nothing and decides on the claims alone. */
  lemma {:induction false} RunAvoids<T>(env: Env, s: Memo, q: Query<T>, facts: Facts, kind: string)
    requires Total(q) && Avoids(q, facts, kind)
    requires forall u: Uid :: u.kind != kind ==>
      match OwnerOf(env, u) {
        case FromPrincipal => facts(u) == Some(PrincipalEntity(env.principal))
        case Nowhere => facts(u) == None
        case FromSlice(_) => false
      }
    requires s.loads == [] && s.firstErr == None && Agrees(facts, s)
    ensures Run(env, s, q).0 == Decide(q, facts)
    ensures Run(env, s, q).1.loads == [] && Run(env, s, q).1.firstErr == None
    decreases q
  {
    if q.Ask? {
      var (answer, s') := GetStep(env, s, q.uid);
      assert answer == facts(q.uid) && s'.loads == [] && s'.firstErr == None && Agrees(facts, s');
      hide OwnerOf, GetStep;
      RunAvoids(env, s', q.next[answer], facts, kind);
    }
  }

  // ----- the decision -----

  /** What the evaluator sees with no slice involved: the principal and nothing else. */
  function ClaimFacts(p: Principal): Facts {
    (u: Uid) => if u == p.uid then Some(PrincipalEntity(p)) else None
  }

  lemma {:induction false} NothingFound(todo: seq<Uid>, known: set<Uid>, targets: seq<Uid>, fuel: nat, facts: Facts)
    requires forall u :: u in todo ==> facts(u) == None
    ensures !Found(todo, known, targets, fuel, facts)
    decreases fuel
  {
    if todo != [] && fuel != 0 { NothingFound(todo[1..], known, targets, fuel - 1, facts); }
  }

  /** `principal in Role::"name"` holds exactly when the claims list the role. */
  lemma InRole(p: Principal, name: string, fuel: nat)
    requires fuel >= 1 && p.uid.kind != ROLE_TYPE
    ensures ScopeHolds(In([Role(name)]), p.uid, fuel, ClaimFacts(p)) <==> Role(name) in PrincipalEntity(p).parents
  {
    var parents := PrincipalEntity(p).parents;
    var facts := ClaimFacts(p);
    var more := Unknown(parents, {p.uid});
    UnknownMeaning(parents, {p.uid});
    forall u | u in more ensures facts(u) == None {
      RoleUidsMeaning(RoleItems(p.claims), u);
    }
    assert [p.uid][1..] + more == more;
    NothingFound(more, {p.uid} + (set u | u in more), [Role(name)], fuel - 1, facts);
    assert Meets(parents, [Role(name)]) <==> Role(name) in parents;
    hide Unknown, PrincipalEntity, Meets;
  }

  /** The four actions the todo slice's policy names. */
  predicate IsTodoAction(action: Uid) {
    action.kind == "Action" && action.id in {"todo:create", "todo:read", "todo:update", "todo:list"}
  }

  /** An action has no parents among the claims, so it is in the policy's list or out of its scope. */
  lemma ActionScope(p: Principal, action: Uid, fuel: nat)
    requires action != p.uid
    ensures ScopeHolds(In(TODO_ACTIONS), action, fuel, ClaimFacts(p)) <==> IsTodoAction(action)
  {
    NothingFound([action], {action}, TODO_ACTIONS, fuel, ClaimFacts(p));
    assert action in TODO_ACTIONS <==> IsTodoAction(action);
  }

  /** What a role allows: everything to an admin, the four todo actions to a user. */
  predicate RoleAllows(p: Principal, action: Uid) {
    Lists(p.claims, "admin") || (Lists(p.claims, "user") && IsTodoAction(action))
  }

  lemma ShippedDecision(walk: seq<Policy>, fuel: nat, p: Principal, req: Request)
    requires Shipped(walk) && fuel >= 1 && p.uid.kind != ROLE_TYPE
    requires req.principal == p.uid && req.action != p.uid
    ensures Total(ShippedPolicies(walk, fuel)(req))
    ensures Decide(ShippedPolicies(walk, fuel)(req), ClaimFacts(p)) == Allow <==> RoleAllows(p, req.action)
  {
    var facts := ClaimFacts(p);
    PrincipalEntityMeaning(p);
    ActionScope(p, req.action, fuel);
    ForbidOverridesPermit(walk, req, fuel, facts);
    InRole(p, "admin", fuel);
    InRole(p, "user", fuel);
    hide PrincipalEntity, Evaluation, Decide, Total, Found, ClaimFacts, IsTodoAction, Lists;
    assert Satisfied(ADMIN_POLICY, req, fuel, facts) <==> Lists(p.claims, "admin");
    assert Satisfied(USER_POLICY, req, fuel, facts) <==> Lists(p.claims, "user") && IsTodoAction(req.action);
    assert ADMIN_POLICY in walk && USER_POLICY in walk;
    assert Applies(walk, Permit, req, fuel, facts) <==>
      Satisfied(ADMIN_POLICY, req, fuel, facts) || Satisfied(USER_POLICY, req, fuel, facts);
    assert !Applies(walk, Forbid, req, fuel, facts);
  }

  lemma ShippedRoutes(p: Principal, u: Uid)
    requires p.uid.kind != TODO_TYPE && u.kind != TODO_TYPE
    ensures SourceOf(RouteTable(p, [PRINCIPAL_CONTRIBUTION] + [TODO_CONTRIBUTION]), p, u)
         == if u == p.uid then FromPrincipal else Nowhere
  {
    var cs := [TODO_CONTRIBUTION];
    TodoAloneIsWellOwned();
    RoutingMeaning(cs, p, u);
    assert forall b :: !Declares(cs, b, u.kind);
  }

  lemma ShippedOwners(p: Principal, env: Env)
    requires p.uid.kind != TODO_TYPE && env.principal == p
    requires env.table == RouteTable(p, [PRINCIPAL_CONTRIBUTION] + [TODO_CONTRIBUTION])
    ensures forall u: Uid :: u.kind != TODO_TYPE ==> OwnerOf(env, u) == if u == p.uid then FromPrincipal else Nowhere
  {
    hide RouteTable, SourceOf;
    forall u: Uid | u.kind != TODO_TYPE
      ensures OwnerOf(env, u) == if u == p.uid then FromPrincipal else Nowhere
    {
      ShippedRoutes(p, u);
    }
  }

  lemma ShippedAvoids(walk: seq<Policy>, fuel: nat, p: Principal, req: Request)
    requires Shipped(walk) && req.principal == p.uid && p.uid.kind != TODO_TYPE && req.action.kind != TODO_TYPE
    ensures Total(ShippedPolicies(walk, fuel)(req))
    ensures Avoids(ShippedPolicies(walk, fuel)(req), ClaimFacts(p), TODO_TYPE)
  {
    forall u | u in PrincipalEntity(p).parents ensures u.kind != TODO_TYPE {
      RoleUidsMeaning(RoleItems(p.claims), u);
    }
    hide Evaluation, Total, Avoids, PrincipalEntity;
    EvaluationAvoids(walk, req, fuel, false, false, ClaimFacts(p), TODO_TYPE);
  }

  /** The authorize middleware on any required action: decided by the principal's roles, with no load. */
  lemma ShippedAuthorize(walk: seq<Policy>, fuel: nat, find: Finder, p: Principal, action: Uid, idParam: string,
      params: map<string, string>)
    requires Shipped(walk) && fuel >= 1 && p.uid.kind !in {ROLE_TYPE, TODO_TYPE, ACTION_TYPE} && action.kind == ACTION_TYPE
    ensures TotalPolicies(ShippedEngine(walk, fuel, find).policies)
    ensures AuthorizeSpec(ShippedEngine(walk, fuel, find), p, Require(action, idParam), params) ==
      (if RoleAllows(p, action) then Handler(p) else if p.uid.kind == "Anonymous" then Problem(401) else Problem(403), [])
  {
    hide RoleAllows, RouteTable, Evaluation, Decide, Total, Avoids, TotalPolicies, PrincipalEntity, SourceOf;
    var engine := ShippedEngine(walk, fuel, find);
    var req := RequestFor(p, action, idParam, params);
    var facts, env := ClaimFacts(p), GetterEnv(engine, p);
    ShippedIsTotal(walk, fuel);
    ShippedDecision(walk, fuel, p, req);
    ShippedAvoids(walk, fuel, p, req);
    ShippedOwners(p, env);
    hide OwnerOf;
    RunAvoids(env, EMPTY, engine.policies(req), facts, TODO_TYPE);
  }

  /** The authenticate middleware, then authorize. */
  ghost function Serve(engine: Engine, store: KeyStore, h: Headers, decl: Declaration, params: map<string, string>): (Response, seq<Load>)
    requires TotalPolicies(engine.policies)
  {
    match AuthenticateSpec(store, h)
    case Err(_) => (Problem(UNAUTHORIZED), [])
    case Ok(p) => AuthorizeSpec(engine, p, decl, params)
  }

  /** The handler runs, as this identity. */
  ghost predicate RunsAs(r: Response, identity: Identity) {
    r.Handler? && Represents(r.principal, identity)
  }

  /** For every credential, key table, role list and todo store, on every required action: the handler runs
      exactly when the presented key resolves to an identity with the admin role, or with the user role and
      the action is one of the four on todos; no, unknown or unverifiable credentials are a 401, any other
      resolved key a 403; and no todo is loaded. */
  lemma ShippedEndToEnd(walk: seq<Policy>, fuel: nat, find: Finder, store: KeyStore, h: Headers,
      action: Uid, idParam: string, params: map<string, string>)
    requires Shipped(walk) && fuel >= 1 && action.kind == "Action"
    ensures TotalPolicies(ShippedEngine(walk, fuel, find).policies)
    ensures var (response, loads) := Serve(ShippedEngine(walk, fuel, find), store, h, Require(action, idParam), params);
      && loads == []
      && ((forall key :: !Presents(h, key)) ==> response == Problem(401))
      && forall key :: Presents(h, key) ==>
           match store(key) {
             case LookupFailed => response == Problem(401)
             case NoSuchKey => response == Problem(401)
             case KnownKey(identity) =>
               if "admin" in identity.roles || ("user" in identity.roles && IsTodoAction(action))
               then RunsAs(response, identity) else response == Problem(403)
           }
  {
    ShippedIsTotal(walk, fuel);
    ShippedAuthorize(walk, fuel, find, ANONYMOUS, action, idParam, params);
    var key := CredentialFrom(h);
    forall k ensures Presents(h, k) <==> k != "" && k == key {
      CredentialMeaning(h, k);
    }
    assert key != "" ==> Presents(h, key);
    if key != "" && store(key).KnownKey? {
      var identity := store(key).identity;
      ShippedAuthorize(walk, fuel, find, ToPrincipal(identity), action, idParam, params);
      IdentityRoles(identity);
    }
    hide AuthorizeSpec, TotalPolicies, ShippedEngine, CredentialFrom, Presents, Represents, IsTodoAction, ToPrincipal, Lists;
  }

  lemma IdentityRoles(identity: Identity)
    ensures Represents(ToPrincipal(identity), identity)
    ensures forall name :: Lists(ToPrincipal(identity).claims, name) <==> name in identity.roles
    ensures ToPrincipal(identity).uid.kind == "User"
  {
    var p := ToPrincipal(identity);
    PrincipalEntityMeaning(p);
    forall name ensures Role(name) in PrincipalEntity(p).parents <==> name in identity.roles {
      RolesProjected(identity, name);
    }
    forall name ensures Lists(p.claims, name) <==> name in identity.roles {
      assert Role(name) in PrincipalEntity(p).parents <==> Lists(p.claims, name);
    }
  }
}
