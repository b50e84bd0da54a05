/** What the evaluator's `in` means: reachability through parents.  The bounded search finds no
    ancestor that is not there, and misses none once its bound covers the entities it can reach. */
module Ancestry {
  import opened Ordering
  import opened Entities
  import opened Query
  import opened Cedar

  /** v is a direct parent of u. */
  ghost predicate ParentOf(u: Uid, v: Uid, facts: Facts) {
    facts(u).Some? && v in facts(u).value.parents
  }

  /** Each uid is followed by one of its parents. */
  ghost predicate Path(us: seq<Uid>, facts: Facts) {
    forall i :: 0 <= i < |us| - 1 ==> ParentOf(us[i], us[i + 1], facts)
  }

  ghost predicate Leads(us: seq<Uid>, u: Uid, targets: seq<Uid>, facts: Facts) {
    us != [] && us[0] == u && Path(us, facts) && us[|us| - 1] in targets
  }

  /** Cedar's `u in targets`: a target is u itself or an ancestor of u. */
  ghost predicate Within(u: Uid, targets: seq<Uid>, facts: Facts) {
    exists us :: Leads(us, u, targets, facts)
  }

  lemma PathExtends(u: Uid, v: Uid, us: seq<Uid>, targets: seq<Uid>, facts: Facts)
    requires ParentOf(u, v, facts) && Leads(us, v, targets, facts)
    ensures Leads([u] + us, u, targets, facts)
  {
    var longer := [u] + us;
    forall i | 0 <= i < |longer| - 1 ensures ParentOf(longer[i], longer[i + 1], facts) {
      if i > 0 { assert ParentOf(us[i - 1], us[i], facts); }
    }
  }

  /** u is within the targets if it is one of them or one of its parents is within them, and only then. */
  lemma WithinUnfolds(u: Uid, targets: seq<Uid>, facts: Facts)
    ensures Within(u, targets, facts) <==>
      u in targets || exists v :: ParentOf(u, v, facts) && Within(v, targets, facts)
  {
    if u in targets { assert Leads([u], u, targets, facts); }
    forall v | ParentOf(u, v, facts) && Within(v, targets, facts) ensures Within(u, targets, facts) {
      var us :| Leads(us, v, targets, facts);
      PathExtends(u, v, us, targets, facts);
    }
    if Within(u, targets, facts) && u !in targets {
      var us :| Leads(us, u, targets, facts);
      assert ParentOf(us[0], us[1], facts);
      forall i | 0 <= i < |us[1..]| - 1 ensures ParentOf(us[1..][i], us[1..][i + 1], facts) {
        assert ParentOf(us[i + 1], us[i + 2], facts);
      }
      assert Leads(us[1..], us[1], targets, facts);
    }
  }

  /** Some parent of u is within the targets. */
  ghost predicate Above(u: Uid, targets: seq<Uid>, facts: Facts) {
    exists v :: ParentOf(u, v, facts) && Within(v, targets, facts)
  }

  lemma {:induction false} UnknownMeaning(us: seq<Uid>, known: set<Uid>)
    ensures forall u :: u in Unknown(us, known) <==> u in us && u !in known
    ensures Distinct(Unknown(us, known))
    decreases us
  {
    if us != [] {
      UnknownMeaning(us[1..], known);
      UnknownMeaning(us[1..], known + {us[0]});
      assert forall u :: u in us <==> u == us[0] || u in us[1..];
    }
  }

  // ----- nothing is found that is not there -----

  lemma {:induction false} FoundIsAbove(todo: seq<Uid>, known: set<Uid>, targets: seq<Uid>, fuel: nat, facts: Facts)
    requires Found(todo, known, targets, fuel, facts)
    ensures exists u :: u in todo && Above(u, targets, facts)
    decreases fuel
  {
    var u := todo[0];
    match facts(u)
    case None => FoundIsAbove(todo[1..], known, targets, fuel - 1, facts);
    case Some(e) =>
      if Meets(e.parents, targets) {
        var v :| v in e.parents && v in targets;
        assert Leads([v], v, targets, facts);
        assert ParentOf(u, v, facts) && Within(v, targets, facts);
        assert u in todo && Above(u, targets, facts);
      } else {
        var more := Unknown(e.parents, known);
        FoundIsAbove(todo[1..] + more, known + (set x | x in more), targets, fuel - 1, facts);
        UnknownMeaning(e.parents, known);
        var w :| w in todo[1..] + more && Above(w, targets, facts);
        if w in more {
          WithinUnfolds(w, targets, facts);
          assert ParentOf(u, w, facts);
          assert u in todo && Above(u, targets, facts);
        }
      }
  }

  // ----- nothing that is there is missed -----

  /** No parent leads out of the set. */
  ghost predicate Closed(r: set<Uid>, facts: Facts) {
    forall u, v :: u in r && ParentOf(u, v, facts) ==> v in r
  }

  /** The search's invariant: what has been loaded (seen) shows no target among its parents, and all
      those parents are known; what is known and not loaded waits in todo. */
  ghost predicate Searching(todo: seq<Uid>, known: set<Uid>, seen: set<Uid>, targets: seq<Uid>, facts: Facts) {
    && Distinct(todo)
    && (forall u :: u in todo ==> u !in seen)
    && (forall u :: u in known <==> u in seen || u in todo)
    && (forall u, v :: u in seen && ParentOf(u, v, facts) ==> v in known && v !in targets)
  }

  lemma StillSearching(todo: seq<Uid>, known: set<Uid>, seen: set<Uid>, more: seq<Uid>, targets: seq<Uid>, facts: Facts)
    requires todo != [] && Searching(todo, known, seen, targets, facts)
    requires Distinct(more) && forall u :: u in more ==> u !in known
    requires forall v :: ParentOf(todo[0], v, facts) ==> (v in known || v in more) && v !in targets
    ensures Searching(todo[1..] + more, known + (set u | u in more), seen + {todo[0]}, targets, facts)
  {
    var rest, u := todo[1..], todo[0];
    assert forall x :: x in todo <==> x == u || x in rest;
    assert u !in rest;
    DistinctAppend(rest, more);
    hide Distinct;
  }

  /** A closed set none of whose members has a target for a parent has nothing above it. */
  lemma {:induction false} NothingAbove(r: set<Uid>, us: seq<Uid>, targets: seq<Uid>, facts: Facts)
    requires Closed(r, facts) && us != [] && us[0] in r && Path(us, facts) && us[0] !in targets
    requires forall u, v :: u in r && ParentOf(u, v, facts) ==> v !in targets
    ensures us[|us| - 1] !in targets
    decreases us
  {
    if |us| > 1 {
      assert ParentOf(us[0], us[1], facts);
      forall i | 0 <= i < |us[1..]| - 1 ensures ParentOf(us[1..][i], us[1..][i + 1], facts) {
        assert ParentOf(us[i + 1], us[i + 2], facts);
      }
      NothingAbove(r, us[1..], targets, facts);
    }
  }

  /** What loading u adds to the search. */
  function NewParents(u: Uid, known: set<Uid>, facts: Facts): seq<Uid> {
    match facts(u)
    case None => []
    case Some(e) => Unknown(e.parents, known)
  }

  lemma NotFoundGoesOn(todo: seq<Uid>, known: set<Uid>, targets: seq<Uid>, fuel: nat, facts: Facts)
    requires todo != [] && fuel != 0 && !Found(todo, known, targets, fuel, facts)
    ensures var more := NewParents(todo[0], known, facts);
      && !Found(todo[1..] + more, known + (set u | u in more), targets, fuel - 1, facts)
      && Distinct(more)
      && (forall u :: u in more ==> u !in known)
      && (forall v :: ParentOf(todo[0], v, facts) ==> (v in known || v in more) && v !in targets)
  {
    match facts(todo[0])
    case None =>
      assert todo[1..] + [] == todo[1..] && known + (set u | u in []) == known;
    case Some(e) =>
      UnknownMeaning(e.parents, known);
  }

  lemma AllLoaded(known: set<Uid>, targets: seq<Uid>, facts: Facts)
    requires Searching([], known, known, targets, facts)
    ensures forall u :: u in known ==> !Above(u, targets, facts)
  {
    assert Closed(known, facts);
    forall u, v, us | u in known && ParentOf(u, v, facts) ensures !Leads(us, v, targets, facts) {
      if Leads(us, v, targets, facts) { NothingAbove(known, us, targets, facts); }
    }
  }

  lemma KnownStaysInside(todo: seq<Uid>, known: set<Uid>, r: set<Uid>, facts: Facts)
    requires todo != [] && Closed(r, facts) && known <= r && todo[0] in known
    ensures var more := NewParents(todo[0], known, facts);
      known + (set u | u in more) <= r
  {
    var u := todo[0];
    if facts(u).Some? {
      UnknownMeaning(facts(u).value.parents, known);
      forall v | v in NewParents(u, known, facts) ensures v in r { assert ParentOf(u, v, facts); }
    }
  }

  lemma {:induction false} NoneMissed(todo: seq<Uid>, known: set<Uid>, seen: set<Uid>, r: set<Uid>,
      targets: seq<Uid>, fuel: nat, facts: Facts)
    requires Searching(todo, known, seen, targets, facts) && Closed(r, facts)
    requires known <= r && |r| <= fuel + |seen| && !Found(todo, known, targets, fuel, facts)
    ensures forall u :: u in known ==> !Above(u, targets, facts)
    decreases fuel
  {
    hide Found, Closed, Above, Distinct, NewParents, ParentOf;
    if todo == [] {
      assert known == seen;
      AllLoaded(known, targets, facts);
    } else {
      var u := todo[0];
      assert u in known && u !in seen && seen <= known;
      SubsetSize(seen + {u}, r);
      NotFoundGoesOn(todo, known, targets, fuel, facts);
      KnownStaysInside(todo, known, r, facts);
      var more := NewParents(u, known, facts);
      StillSearching(todo, known, seen, more, targets, facts);
      hide Searching;
      NoneMissed(todo[1..] + more, known + (set x | x in more), seen + {u}, r, targets, fuel - 1, facts);
    }
  }

  lemma {:induction false} SubsetSize(a: set<Uid>, b: set<Uid>)
    requires a <= b
    ensures |a| <= |b|
  {
    if a != {} {
      var x :| x in a;
      SubsetSize(a - {x}, b - {x});
    }
  }

  /** A scope holds for a uid by ancestry alone. */
  ghost predicate InScope(scope: Scope, uid: Uid, facts: Facts) {
    scope.Any? || Within(uid, scope.targets, facts)
  }

  /** The bounded search decides ancestry, for every bound that covers the entities it can reach. */
  lemma ScopeIsAncestry(scope: Scope, uid: Uid, r: set<Uid>, fuel: nat, facts: Facts)
    requires Closed(r, facts) && uid in r && |r| <= fuel
    ensures ScopeHolds(scope, uid, fuel, facts) <==> InScope(scope, uid, facts)
  {
    if scope.In? {
      WithinUnfolds(uid, scope.targets, facts);
    }
    if scope.In? && uid !in scope.targets {
      if Found([uid], {uid}, scope.targets, fuel, facts) {
        FoundIsAbove([uid], {uid}, scope.targets, fuel, facts);
      } else {
        NoneMissed([uid], {uid}, {}, r, scope.targets, fuel, facts);
      }
    }
  }

  /** A smaller bound can only miss ancestors. */
  lemma BoundedScopeIsSound(scope: Scope, uid: Uid, fuel: nat, facts: Facts)
    requires ScopeHolds(scope, uid, fuel, facts)
    ensures InScope(scope, uid, facts)
  {
    if scope.In? {
      WithinUnfolds(uid, scope.targets, facts);
      if uid !in scope.targets { FoundIsAbove([uid], {uid}, scope.targets, fuel, facts); }
    }
  }

  /** The policy's three scopes hold of the request. */
  ghost predicate Matches(p: Policy, req: Request, facts: Facts) {
    && InScope(p.principal, req.principal, facts)
    && InScope(p.action, req.action, facts)
    && InScope(p.resource, req.resource, facts)
  }

  /** The request is allowed exactly when it lies in the scopes of some permit and of no forbid, where
      `in` is ancestry through parents. */
  lemma DecisionByAncestry(ps: seq<Policy>, req: Request, r: set<Uid>, fuel: nat, facts: Facts)
    requires Closed(r, facts) && {req.principal, req.action, req.resource} <= r && |r| <= fuel
    ensures Total(Evaluation(ps, req, fuel, false, false))
    ensures Decide(Evaluation(ps, req, fuel, false, false), facts) == Allow <==>
      && (exists p :: p in ps && p.effect.Permit? && Matches(p, req, facts))
      && !(exists p :: p in ps && p.effect.Forbid? && Matches(p, req, facts))
  {
    ForbidOverridesPermit(ps, req, fuel, facts);
    hide Evaluation, Decide, Total, ScopeHolds, InScope, Closed;
    forall p ensures Satisfied(p, req, fuel, facts) <==> Matches(p, req, facts) {
      ScopeIsAncestry(p.principal, req.principal, r, fuel, facts);
      ScopeIsAncestry(p.action, req.action, r, fuel, facts);
      ScopeIsAncestry(p.resource, req.resource, r, fuel, facts);
    }
  }
}
