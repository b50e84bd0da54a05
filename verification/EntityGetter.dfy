/** The request-scoped composite getter of internal/authz/getter.go: routed, memoizing hits and
    misses, and recording the first load error on the side because Get cannot return one. */
module EntityGetter {
  import opened Wrappers
  import opened Entities
  import opened Routing
  import opened Query

  type Error = string

  /** What a slice's resolver does with one lookup: it answers hit or miss, and may report load
      failures through RecordLoadError on the way. */
  datatype Reply = Reply(entity: Option<Entity>, errors: seq<Error>)

  /** The backends during one request: the reply may depend on how many loads came before, so a
      store may change, and fail, between any two loads. */
  type World = (int, nat, Uid) -> Reply

  datatype Load = Load(backend: int, uid: Uid)

  /** What a getter is built with. */
  datatype Env = Env(world: World, principal: Principal, table: Table)

  /** What a getter accumulates. */
  datatype Memo = Memo(cache: map<Uid, Option<Entity>>, firstErr: Option<Error>, loads: seq<Load>)

  const EMPTY := Memo(map[], None, [])

  /** The first error wins and is never cleared. */
  function FirstOf(first: Option<Error>, errors: seq<Error>): Option<Error> {
    if first.Some? || errors == [] then first else Some(errors[0])
  }

  function GetStep(env: Env, s: Memo, uid: Uid): (Option<Entity>, Memo) {
    if uid in s.cache then (s.cache[uid], s)
    else match SourceOf(env.table, env.principal, uid)
      case FromPrincipal =>
        var e := Some(PrincipalEntity(env.principal));
        (e, s.(cache := s.cache[uid := e]))
      case Nowhere =>
        (None, s.(cache := s.cache[uid := None]))
      case FromSlice(backend) =>
        var reply := env.world(backend, |s.loads|, uid);
        (reply.entity, Memo(s.cache[uid := reply.entity],
                            FirstOf(s.firstErr, reply.errors),
                            s.loads + [Load(backend, uid)]))
  }

  /** An evaluation through the getter. */
  ghost function Run<T>(env: Env, s: Memo, q: Query<T>): (T, Memo)
    requires Total(q)
    decreases q
  {
    match q
    case Done(v) => (v, s)
    case Ask(uid, next) =>
      var (answer, s') := GetStep(env, s, uid);
      Run(env, s', next[answer])
  }

  class Getter {
    const env: Env
    var cache: map<Uid, Option<Entity>>
    var firstErr: Option<Error>
    /** The loads that reached a slice's backend, in order. */
    var loads: seq<Load>

    function State(): Memo
      reads this
    {
      Memo(cache, firstErr, loads)
    }

    constructor (world: World, principal: Principal, table: Table)
      ensures env == Env(world, principal, table) && State() == EMPTY
    {
      env := Env(world, principal, table);
      cache := map[];
      firstErr := None;
      loads := [];
    }

    method SetErr(err: Error)
      modifies this`firstErr
      ensures firstErr == if old(firstErr) == None then Some(err) else old(firstErr)
    {
      if firstErr == None {
        firstErr := Some(err);
      }
    }

    /** A slice resolver's Resolve: load, and report each failure to the sink. */
    method ResolveSlice(backend: int, uid: Uid) returns (entity: Option<Entity>)
      modifies this`firstErr, this`loads
      ensures var reply := env.world(backend, |old(loads)|, uid);
        && entity == reply.entity
        && firstErr == FirstOf(old(firstErr), reply.errors)
        && (old(firstErr).Some? || reply.errors == [] ==> firstErr == old(firstErr))
        && (old(firstErr) == None && reply.errors != [] ==> firstErr == Some(reply.errors[0]))
      ensures loads == old(loads) + [Load(backend, uid)]
    {
      var reply := env.world(backend, |loads|, uid);
      loads := loads + [Load(backend, uid)];
      for i := 0 to |reply.errors|
        invariant firstErr == FirstOf(old(firstErr), reply.errors[..i])
        invariant loads == old(loads) + [Load(backend, uid)]
      {
        SetErr(reply.errors[i]);
      }
      assert reply.errors[..|reply.errors|] == reply.errors;
      entity := reply.entity;
    }

    /** Resolver.Resolve for the resolvers the table can hold. */
    method Resolve(r: Resolver, uid: Uid) returns (entity: Option<Entity>)
      modifies this`firstErr, this`loads
      ensures match SourceVia(r, env.principal, uid) {
        case FromPrincipal =>
          entity == Some(PrincipalEntity(env.principal)) && firstErr == old(firstErr) && loads == old(loads)
        case Nowhere =>
          entity == None && firstErr == old(firstErr) && loads == old(loads)
        case FromSlice(backend) =>
          var reply := env.world(backend, |old(loads)|, uid);
          entity == reply.entity && firstErr == FirstOf(old(firstErr), reply.errors)
          && loads == old(loads) + [Load(backend, uid)]
      }
      decreases r
    {
      match r {
        case PrincipalResolver =>
          entity := ResolvePrincipal(uid);
        case SliceResolver(backend) =>
          entity := ResolveSlice(backend, uid);
        case PrincipalFirst(fallback) =>
          entity := ResolvePrincipal(uid);
          if entity == None {
            entity := Resolve(fallback, uid);
          }
      }
    }

    /** principalResolver.Resolve: matches only the bound principal. */
    method ResolvePrincipal(uid: Uid) returns (entity: Option<Entity>)
      ensures entity == if uid == env.principal.uid then Some(PrincipalEntity(env.principal)) else None
      ensures entity.Some? ==> DescribesPrincipal(entity.value, env.principal)
    {
      PrincipalEntityMeaning(env.principal);
      if uid != env.principal.uid {
        return None;
      }
      var parents := RoleParents(env.principal.claims);
      entity := Some(Entity(env.principal.uid, parents, env.principal.claims));
    }

    method Get(uid: Uid) returns (entity: Option<Entity>)
      modifies this
      ensures (entity, State()) == GetStep(env, old(State()), uid)
    {
      if uid in cache {
        return cache[uid];
      }
      if uid.kind !in env.table {
        cache := cache[uid := None];
        return None;
      }
      entity := Resolve(env.table[uid.kind], uid);
      cache := cache[uid := entity];
    }

    /** Cedar's Authorize, pulling entities one by one. */
    method Authorize<T>(query: Query<T>) returns (value: T)
      requires Total(query)
      modifies this
      ensures (value, State()) == Run(env, old(State()), query)
    {
      var q := query;
      while q.Ask?
        invariant Total(q)
        invariant Run(env, old(State()), query) == Run(env, State(), q)
        decreases q
      {
        var answer := Get(q.uid);
        q := q.next[answer];
      }
      value := q.value;
    }
  }

  // ----- what the memo means -----

  /** Every failure the given loads reported, in order. */
  function Reported(world: World, loads: seq<Load>): seq<Error> {
    if loads == [] then []
    else
      var n := |loads| - 1;
      Reported(world, loads[..n]) + world(loads[n].backend, n, loads[n].uid).errors
  }

  function OwnerOf(env: Env, uid: Uid): Source { SourceOf(env.table, env.principal, uid) }

  /** Each uid is loaded at most once. */
  ghost predicate LoadedOnce(s: Memo) {
    forall i, j :: 0 <= i < j < |s.loads| ==> s.loads[i].uid != s.loads[j].uid
  }

  /** Each load went to the uid's owner, and its reply is what the cache holds. */
  ghost predicate LoadsCached(env: Env, s: Memo) {
    forall i :: 0 <= i < |s.loads| ==>
      var l := s.loads[i];
      OwnerOf(env, l.uid) == FromSlice(l.backend) && l.uid in s.cache
      && s.cache[l.uid] == env.world(l.backend, i, l.uid).entity
  }

  /** Nothing else is cached but the principal and misses of unowned types. */
  ghost predicate CacheExplained(env: Env, s: Memo) {
    forall uid :: uid in s.cache ==>
      match OwnerOf(env, uid)
      case FromPrincipal => s.cache[uid] == Some(PrincipalEntity(env.principal))
      case Nowhere => s.cache[uid] == None
      case FromSlice(_) => exists i :: 0 <= i < |s.loads| && s.loads[i].uid == uid
  }

  ghost predicate Inv(env: Env, s: Memo) {
    && LoadedOnce(s) && LoadsCached(env, s) && CacheExplained(env, s)
    && s.firstErr == FirstOf(None, Reported(env.world, s.loads))
  }

  lemma EmptyInv(env: Env)
    ensures Inv(env, EMPTY)
  {
  }

  lemma ReportedGrows(world: World, loads: seq<Load>, l: Load)
    ensures Reported(world, loads + [l]) == Reported(world, loads) + world(l.backend, |loads|, l.uid).errors
  {
    assert (loads + [l])[..|loads|] == loads;
  }

  lemma LoadKeepsInv(env: Env, s: Memo, uid: Uid)
    requires Inv(env, s) && uid !in s.cache && OwnerOf(env, uid).FromSlice?
    ensures Inv(env, GetStep(env, s, uid).1)
  {
    var s' := GetStep(env, s, uid).1;
    var l := Load(OwnerOf(env, uid).backend, uid);
    ReportedGrows(env.world, s.loads, l);
    assert s'.loads == s.loads + [l];
    assert s'.cache == s.cache[uid := env.world(l.backend, |s.loads|, uid).entity];
    hide OwnerOf, SourceOf, Reported, GetStep, CacheExplained, LoadedOnce, LoadsCached;
    LoadStaysOnce(env, s, s', l);
    LoadStaysCached(env, s, s', l);
    LoadExplainsCache(env, s, s', l);
  }

  lemma LoadStaysOnce(env: Env, s: Memo, s': Memo, l: Load)
    requires LoadedOnce(s) && LoadsCached(env, s) && l.uid !in s.cache && s'.loads == s.loads + [l]
    ensures LoadedOnce(s')
  {
    hide OwnerOf;
    assert forall i :: 0 <= i < |s.loads| ==> s.loads[i].uid in s.cache && s'.loads[i] == s.loads[i];
  }

  lemma LoadStaysCached(env: Env, s: Memo, s': Memo, l: Load)
    requires LoadsCached(env, s) && l.uid !in s.cache && s'.loads == s.loads + [l]
    requires OwnerOf(env, l.uid) == FromSlice(l.backend)
    requires s'.cache == s.cache[l.uid := env.world(l.backend, |s.loads|, l.uid).entity]
    ensures LoadsCached(env, s')
  {
    hide OwnerOf;
    forall i | 0 <= i < |s'.loads|
      ensures var x := s'.loads[i];
        OwnerOf(env, x.uid) == FromSlice(x.backend) && x.uid in s'.cache
        && s'.cache[x.uid] == env.world(x.backend, i, x.uid).entity
    {
      if i < |s.loads| { assert s'.loads[i] == s.loads[i] && s.loads[i].uid in s.cache; }
    }
  }

  lemma LoadExplainsCache(env: Env, s: Memo, s': Memo, l: Load)
    requires CacheExplained(env, s) && s'.loads == s.loads + [l] && OwnerOf(env, l.uid).FromSlice?
    requires forall u :: u in s'.cache && u != l.uid ==> u in s.cache && s'.cache[u] == s.cache[u]
    ensures CacheExplained(env, s')
  {
    hide OwnerOf;
    assert s'.loads[|s.loads|] == l;
    forall u | u in s'.cache && OwnerOf(env, u).FromSlice?
      ensures exists i :: 0 <= i < |s'.loads| && s'.loads[i].uid == u
    {
      if u != l.uid {
        var i :| 0 <= i < |s.loads| && s.loads[i].uid == u;
        assert s'.loads[i].uid == u;
      }
    }
  }

  lemma GetKeepsInv(env: Env, s: Memo, uid: Uid)
    requires Inv(env, s)
    ensures var (answer, s') := GetStep(env, s, uid);
      && Inv(env, s')
      && uid in s'.cache && s'.cache[uid] == answer
      && (forall u :: u in s.cache ==> u in s'.cache && s'.cache[u] == s.cache[u])
  {
    hide SourceOf, Reported;
    if uid !in s.cache && OwnerOf(env, uid).FromSlice? {
      LoadKeepsInv(env, s, uid);
    } else if uid !in s.cache {
      var s' := GetStep(env, s, uid).1;
      assert CacheExplained(env, s');
    }
  }

  /** Answers to a sequence of lookups on one getter. */
  function Answers(env: Env, s: Memo, uids: seq<Uid>): seq<Option<Entity>>
    decreases uids
  {
    if uids == [] then []
    else
      var (answer, s') := GetStep(env, s, uids[0]);
      [answer] + Answers(env, s', uids[1..])
  }

  function After(env: Env, s: Memo, uids: seq<Uid>): Memo
    decreases uids
  {
    if uids == [] then s else After(env, GetStep(env, s, uids[0]).1, uids[1..])
  }

  lemma {:induction false} AnswersMeaning(env: Env, s: Memo, uids: seq<Uid>)
    requires Inv(env, s)
    ensures var s' := After(env, s, uids);
      && Inv(env, s')
      && (forall u :: u in s.cache ==> u in s'.cache && s'.cache[u] == s.cache[u])
      && |Answers(env, s, uids)| == |uids|
      && (forall i :: 0 <= i < |uids| ==> uids[i] in s'.cache && Answers(env, s, uids)[i] == s'.cache[uids[i]])
    decreases uids
  {
    if uids != [] {
      GetKeepsInv(env, s, uids[0]);
      hide Inv, GetStep;
      AnswersMeaning(env, GetStep(env, s, uids[0]).1, uids[1..]);
    }
  }

  /** The i-th of these loads is the first to report a failure. */
  predicate FirstFailure(world: World, loads: seq<Load>, i: nat) {
    && i < |loads| && world(loads[i].backend, i, loads[i].uid).errors != []
    && forall j :: 0 <= j < i ==> world(loads[j].backend, j, loads[j].uid).errors == []
  }

  lemma {:induction false} ReportedFirst(world: World, loads: seq<Load>, i: nat)
    requires FirstFailure(world, loads, i)
    ensures Reported(world, loads) != [] && Reported(world, loads)[0] == world(loads[i].backend, i, loads[i].uid).errors[0]
  {
    var n := |loads| - 1;
    assert forall j :: 0 <= j < n ==> loads[..n][j] == loads[j];
    if i < n { ReportedFirst(world, loads[..n], i); } else { ReportedMeaning(world, loads[..n]); }
  }

  /** Over any sequence of lookups on one getter, even while the stores change underneath: repeated
      lookups of a uid agree, each uid reaches its slice at most once, and Err is the first failure
      any of those loads reported. */
  lemma GetterIsACache(env: Env, uids: seq<Uid>)
    ensures |Answers(env, EMPTY, uids)| == |uids|
    ensures forall i, j :: 0 <= i < j < |uids| && uids[i] == uids[j] ==>
      Answers(env, EMPTY, uids)[i] == Answers(env, EMPTY, uids)[j]
    ensures var s := After(env, EMPTY, uids);
      && LoadedOnce(s)
      && (s.firstErr == None <==> !SomeLoadFailed(env, s))
      && (forall i: nat :: FirstFailure(env.world, s.loads, i) ==>
            s.firstErr == Some(env.world(s.loads[i].backend, i, s.loads[i].uid).errors[0]))
  {
    EmptyInv(env);
    AnswersMeaning(env, EMPTY, uids);
    var s := After(env, EMPTY, uids);
    ReportedMeaning(env.world, s.loads);
    forall i: nat | FirstFailure(env.world, s.loads, i)
      ensures Reported(env.world, s.loads) != []
      ensures Reported(env.world, s.loads)[0] == env.world(s.loads[i].backend, i, s.loads[i].uid).errors[0]
    {
      ReportedFirst(env.world, s.loads, i);
    }
  }

  // ----- the decision -----

  /** Facts that say of every looked-up uid what the getter said. */
  ghost predicate Agrees(facts: Facts, s: Memo) {
    forall u :: u in s.cache ==> facts(u) == s.cache[u]
  }

  /** Whatever the stores do during the request, the decision is the one the evaluator makes,
      uncached, on a single fixed set of facts: those the getter has shown it. */
  lemma {:induction false} DecisionOnSnapshot<T>(env: Env, s: Memo, q: Query<T>, facts: Facts)
    requires Total(q) && Inv(env, s) && Agrees(facts, Run(env, s, q).1)
    ensures Inv(env, Run(env, s, q).1)
    ensures forall u :: u in s.cache ==> u in Run(env, s, q).1.cache && Run(env, s, q).1.cache[u] == s.cache[u]
    ensures Run(env, s, q).0 == Decide(q, facts)
    decreases q
  {
    if q.Ask? {
      var (answer, s') := GetStep(env, s, q.uid);
      GetKeepsInv(env, s, q.uid);
      hide Inv, GetStep;
      DecisionOnSnapshot(env, s', q.next[answer], facts);
    }
  }

  lemma {:induction false} RunKeepsInv<T>(env: Env, s: Memo, q: Query<T>)
    requires Total(q) && Inv(env, s)
    ensures Inv(env, Run(env, s, q).1)
    decreases q
  {
    if q.Ask? {
      var (answer, s') := GetStep(env, s, q.uid);
      GetKeepsInv(env, s, q.uid);
      hide Inv, GetStep;
      RunKeepsInv(env, s', q.next[answer]);
    }
  }

  /** A store that never fails: what each backend holds for each uid. */
  type Truth = (int, Uid) -> Option<Entity>

  /** Any load may fail at any time, but one that reports no failure tells the truth. */
  ghost predicate Honest(world: World, truth: Truth) {
    forall b, n, uid :: world(b, n, uid).errors == [] ==> world(b, n, uid).entity == truth(b, uid)
  }

  /** The perfect fact store behind the routing table. */
  function TrueFacts(principal: Principal, table: Table, truth: Truth): Facts {
    (uid: Uid) =>
      match SourceOf(table, principal, uid)
      case FromPrincipal => Some(PrincipalEntity(principal))
      case Nowhere => None
      case FromSlice(b) => truth(b, uid)
  }

  /** Some load of this request reported a failure. */
  ghost predicate SomeLoadFailed(env: Env, s: Memo) {
    exists i :: 0 <= i < |s.loads| && env.world(s.loads[i].backend, i, s.loads[i].uid).errors != []
  }

  lemma {:induction false} ReportedMeaning(world: World, loads: seq<Load>)
    ensures Reported(world, loads) == [] <==>
      forall i :: 0 <= i < |loads| ==> world(loads[i].backend, i, loads[i].uid).errors == []
  {
    if loads != [] {
      var n := |loads| - 1;
      ReportedMeaning(world, loads[..n]);
      assert forall i :: 0 <= i < n ==> loads[..n][i] == loads[i];
    }
  }

  /** With no failure reported, everything the getter has shown is true. */
  lemma NoErrorAgrees(env: Env, s: Memo, truth: Truth)
    requires Inv(env, s) && Honest(env.world, truth) && s.firstErr.None?
    ensures Agrees(TrueFacts(env.principal, env.table, truth), s)
  {
    ReportedMeaning(env.world, s.loads);
    hide SourceOf, Reported;
    var facts := TrueFacts(env.principal, env.table, truth);
    forall u | u in s.cache
      ensures facts(u) == s.cache[u]
    {
      if OwnerOf(env, u).FromSlice? {
        var i :| 0 <= i < |s.loads| && s.loads[i].uid == u;
        assert env.world(s.loads[i].backend, i, u).errors == [];
      }
    }
  }

  /** No error recorded means no load failed, and then the decision is the true one. */
  lemma DecisionIsTrueOrError<T>(env: Env, q: Query<T>, truth: Truth)
    requires Total(q) && Honest(env.world, truth)
    ensures var (value, s) := Run(env, EMPTY, q);
      && (s.firstErr.Some? <==> SomeLoadFailed(env, s))
      && (s.firstErr.None? ==> value == Decide(q, TrueFacts(env.principal, env.table, truth)))
  {
    EmptyInv(env);
    RunKeepsInv(env, EMPTY, q);
    var s := Run(env, EMPTY, q).1;
    ReportedMeaning(env.world, s.loads);
    hide LoadedOnce, LoadsCached, CacheExplained, Honest, Total, Agrees, TrueFacts;
    if s.firstErr.None? {
      NoErrorAgrees(env, s, truth);
      DecisionOnSnapshot(env, EMPTY, q, TrueFacts(env.principal, env.table, truth));
    }
  }
}
