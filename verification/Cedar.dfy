/** The part of Cedar the shipped policies use: permit and forbid over scopes, with `in` following
    parents, forbid overriding permit, deny by default.  Evaluation is an adaptive query tree. */
module Cedar {
  import opened Wrappers
  import opened Entities
  import opened Query

  datatype Decision = Allow | Deny

  datatype Request = Request(principal: Uid, action: Uid, resource: Uid, context: Record)

  datatype Effect = Permit | Forbid

  /** A scope constraint: none, or `in` any of the targets. */
  datatype Scope = Any | In(targets: seq<Uid>)

  datatype Policy = Policy(effect: Effect, principal: Scope, action: Scope, resource: Scope)

  predicate Meets(us: seq<Uid>, targets: seq<Uid>) {
    exists u :: u in us && u in targets
  }

  function Unknown(us: seq<Uid>, known: set<Uid>): seq<Uid> {
    if us == [] then []
    else if us[0] in known then Unknown(us[1..], known)
    else [us[0]] + Unknown(us[1..], known + {us[0]})
  }

  /** Breadth-first search of the ancestors of `todo`, at most `fuel` loads deep, continuing with
      `yes` or `no`. */
  ghost function Search<T>(todo: seq<Uid>, known: set<Uid>, targets: seq<Uid>, fuel: nat,
      yes: Query<T>, no: Query<T>): Query<T>
    decreases fuel, 1
  {
    if todo == [] || fuel == 0 then no
    else Ask(todo[0], imap answer: Option<Entity> :: Resume(todo[1..], known, targets, fuel, yes, no, answer))
  }

  ghost function Resume<T>(todo: seq<Uid>, known: set<Uid>, targets: seq<Uid>, fuel: nat,
      yes: Query<T>, no: Query<T>, answer: Option<Entity>): Query<T>
    requires fuel != 0
    decreases fuel, 0
  {
    match answer
    case None => Search(todo, known, targets, fuel - 1, yes, no)
    case Some(e) =>
      var more := Unknown(e.parents, known);
      if Meets(e.parents, targets) then yes
      else Search(todo + more, known + (set u | u in more), targets, fuel - 1, yes, no)
  }

  /** What that search finds over given facts. */
  ghost predicate Found(todo: seq<Uid>, known: set<Uid>, targets: seq<Uid>, fuel: nat, facts: Facts)
    decreases fuel
  {
    todo != [] && fuel != 0 &&
    match facts(todo[0])
    case None => Found(todo[1..], known, targets, fuel - 1, facts)
    case Some(e) =>
      var more := Unknown(e.parents, known);
      Meets(e.parents, targets) || Found(todo[1..] + more, known + (set u | u in more), targets, fuel - 1, facts)
  }

  ghost function ScopeQuery<T>(scope: Scope, uid: Uid, fuel: nat, yes: Query<T>, no: Query<T>): Query<T> {
    match scope
    case Any => yes
    case In(targets) => if uid in targets then yes else Search([uid], {uid}, targets, fuel, yes, no)
  }

  ghost predicate ScopeHolds(scope: Scope, uid: Uid, fuel: nat, facts: Facts) {
    match scope
    case Any => true
    case In(targets) => uid in targets || Found([uid], {uid}, targets, fuel, facts)
  }

  ghost function PolicyQuery<T>(p: Policy, req: Request, fuel: nat, yes: Query<T>, no: Query<T>): Query<T> {
    ScopeQuery(p.principal, req.principal, fuel,
      ScopeQuery(p.action, req.action, fuel,
        ScopeQuery(p.resource, req.resource, fuel, yes, no), no), no)
  }

  ghost predicate Satisfied(p: Policy, req: Request, fuel: nat, facts: Facts) {
    && ScopeHolds(p.principal, req.principal, fuel, facts)
    && ScopeHolds(p.action, req.action, fuel, facts)
    && ScopeHolds(p.resource, req.resource, fuel, facts)
  }

  /** Evaluates the policies in turn, remembering whether a permit and a forbid applied. */
  ghost function Evaluation(ps: seq<Policy>, req: Request, fuel: nat, permit: bool, forbid: bool): Query<Decision>
    decreases ps
  {
    if ps == [] then Done(if permit && !forbid then Allow else Deny)
    else
      PolicyQuery(ps[0], req, fuel,
        Evaluation(ps[1..], req, fuel, permit || ps[0].effect.Permit?, forbid || ps[0].effect.Forbid?),
        Evaluation(ps[1..], req, fuel, permit, forbid))
  }

  // ----- meaning -----

  lemma {:induction false} SearchMeaning<T>(todo: seq<Uid>, known: set<Uid>, targets: seq<Uid>, fuel: nat,
      yes: Query<T>, no: Query<T>, facts: Facts)
    requires Total(yes) && Total(no)
    ensures Total(Search(todo, known, targets, fuel, yes, no))
    ensures Decide(Search(todo, known, targets, fuel, yes, no), facts)
         == Decide(if Found(todo, known, targets, fuel, facts) then yes else no, facts)
    decreases fuel, 1
  {
    if todo != [] && fuel != 0 {
      forall answer: Option<Entity>
        ensures Total(Resume(todo[1..], known, targets, fuel, yes, no, answer))
      {
        ResumeMeaning(todo[1..], known, targets, fuel, yes, no, answer, facts);
      }
      hide Resume, Meets, Unknown;
      ResumeMeaning(todo[1..], known, targets, fuel, yes, no, facts(todo[0]), facts);
    }
  }

  lemma {:induction false} ResumeMeaning<T>(todo: seq<Uid>, known: set<Uid>, targets: seq<Uid>, fuel: nat,
      yes: Query<T>, no: Query<T>, answer: Option<Entity>, facts: Facts)
    requires Total(yes) && Total(no) && fuel != 0
    ensures Total(Resume(todo, known, targets, fuel, yes, no, answer))
    ensures Decide(Resume(todo, known, targets, fuel, yes, no, answer), facts) == Decide(
      if match answer {
           case None => Found(todo, known, targets, fuel - 1, facts)
           case Some(e) =>
             var more := Unknown(e.parents, known);
             Meets(e.parents, targets) || Found(todo + more, known + (set u | u in more), targets, fuel - 1, facts)
         } then yes else no, facts)
    decreases fuel, 0
  {
    hide Found, Meets, Unknown;
    match answer
    case None => SearchMeaning(todo, known, targets, fuel - 1, yes, no, facts);
    case Some(e) =>
      var more := Unknown(e.parents, known);
      SearchMeaning(todo + more, known + (set u | u in more), targets, fuel - 1, yes, no, facts);
  }

  lemma ScopeMeaning<T>(scope: Scope, uid: Uid, fuel: nat, yes: Query<T>, no: Query<T>, facts: Facts)
    requires Total(yes) && Total(no)
    ensures Total(ScopeQuery(scope, uid, fuel, yes, no))
    ensures Decide(ScopeQuery(scope, uid, fuel, yes, no), facts)
         == Decide(if ScopeHolds(scope, uid, fuel, facts) then yes else no, facts)
  {
    if scope.In? && uid !in scope.targets {
      SearchMeaning([uid], {uid}, scope.targets, fuel, yes, no, facts);
    }
  }

  lemma PolicyMeaning<T>(p: Policy, req: Request, fuel: nat, yes: Query<T>, no: Query<T>, facts: Facts)
    requires Total(yes) && Total(no)
    ensures Total(PolicyQuery(p, req, fuel, yes, no))
    ensures Decide(PolicyQuery(p, req, fuel, yes, no), facts)
         == Decide(if Satisfied(p, req, fuel, facts) then yes else no, facts)
  {
    hide ScopeQuery, ScopeHolds, Total, Decide;
    var inner := ScopeQuery(p.resource, req.resource, fuel, yes, no);
    ScopeMeaning(p.resource, req.resource, fuel, yes, no, facts);
    var middle := ScopeQuery(p.action, req.action, fuel, inner, no);
    ScopeMeaning(p.action, req.action, fuel, inner, no, facts);
    ScopeMeaning(p.principal, req.principal, fuel, middle, no, facts);
  }

  /** Some policy of this effect applies. */
  ghost predicate Applies(ps: seq<Policy>, effect: Effect, req: Request, fuel: nat, facts: Facts) {
    exists p :: p in ps && p.effect == effect && Satisfied(p, req, fuel, facts)
  }

  lemma {:induction false} EvaluationFrom(ps: seq<Policy>, req: Request, fuel: nat, permit: bool, forbid: bool, facts: Facts)
    ensures Total(Evaluation(ps, req, fuel, permit, forbid))
    ensures Decide(Evaluation(ps, req, fuel, permit, forbid), facts) == Allow <==>
      (permit || Applies(ps, Permit, req, fuel, facts)) && !(forbid || Applies(ps, Forbid, req, fuel, facts))
    decreases ps
  {
    if ps != [] {
      var p, rest := ps[0], ps[1..];
      var permit', forbid' := permit || p.effect.Permit?, forbid || p.effect.Forbid?;
      EvaluationFrom(rest, req, fuel, permit', forbid', facts);
      EvaluationFrom(rest, req, fuel, permit, forbid, facts);
      PolicyMeaning(p, req, fuel, Evaluation(rest, req, fuel, permit', forbid'),
                    Evaluation(rest, req, fuel, permit, forbid), facts);
      hide PolicyQuery, Satisfied, Total, Decide;
      assert forall x :: x in ps <==> x == p || x in rest;
      assert forall e :: Applies(ps, e, req, fuel, facts) <==>
        (p.effect == e && Satisfied(p, req, fuel, facts)) || Applies(rest, e, req, fuel, facts);
    }
  }

  /** A request is allowed exactly when some permit applies and no forbid does. */
  lemma ForbidOverridesPermit(ps: seq<Policy>, req: Request, fuel: nat, facts: Facts)
    ensures Total(Evaluation(ps, req, fuel, false, false))
    ensures Decide(Evaluation(ps, req, fuel, false, false), facts) == Allow <==>
      Applies(ps, Permit, req, fuel, facts) && !Applies(ps, Forbid, req, fuel, facts)
  {
    EvaluationFrom(ps, req, fuel, false, false, facts);
  }
}
