/** The service over PostgreSQL as its concurrent clients use it: every repository call is a step of
    TodoHistory or changes nothing, so what is proved of all histories holds of the deployment. */
module TodoDeployment {
  import opened Wrappers
  import opened Ordering
  import opened Uuids
  import opened Todos
  import opened Paging
  import opened TodoService
  import PG = PostgresRepository
  import H = TodoHistory

  lemma {:induction false} RunExtends(s: H.State, steps: seq<H.Step>, step: H.Step)
    requires H.Runs(s, steps) && H.Enabled(H.Final(s, steps), step)
    ensures H.Runs(s, steps + [step])
    ensures H.Final(s, steps + [step]) == H.Apply(H.Final(s, steps), step)
    decreases steps
  {
    hide H.Apply, H.Enabled;
    if steps == [] {
      assert H.Runs(H.Apply(s, step), []);
      H.RunUnfolds(s, step, []);
      assert [step] + [] == steps + [step];
    } else {
      RunExtends(H.Apply(s, steps[0]), steps[1..], step);
      H.RunUnfolds(s, steps[0], steps[1..] + [step]);
      assert [steps[0]] + (steps[1..] + [step]) == steps + [step];
    }
  }

  lemma CreateStep(s: H.State, cid: string, newID: string, title: string, now: int)
    requires cid !in s.store && NewTodo(newID, title, now).Ok?
    ensures var step, t := H.Create(cid, title, PG.ToMicros(now)), NewTodo(cid, title, PG.ToMicros(now));
      && t.Ok? && H.Enabled(s, step)
      && H.Apply(s, step).store == s.store[cid := t.value]
      && H.Apply(s, step).found == s.found && H.Apply(s, step).walker == s.walker
  {
  }

  lemma SaveStep(s: H.State, client: nat, now: int)
    requires client in s.found
    ensures H.Enabled(s, H.Save(client, now))
    ensures H.Apply(s, H.Save(client, now)) ==
      s.(store := s.store[s.found[client].id := Complete(s.found[client], now)], found := s.found - {client})
  {
  }

  lemma GiveUpStep(s: H.State, client: nat)
    requires client in s.found
    ensures H.Enabled(s, H.GiveUp(client)) && H.Apply(s, H.GiveUp(client)) == s.(found := s.found - {client})
  {
  }

  lemma ListStep(s: H.State, limit: int)
    requires !s.walker.done && Keyed(s.store)
    ensures H.Enabled(s, H.List(limit))
    ensures H.Apply(s, H.List(limit)) == s.(walker := H.Advance(s.walker, Page(s.store, s.walker.after, Clamp(limit))))
  {
  }

  lemma AdvanceStorable(w: H.Walker, r: PageResult)
    requires Storable(w.after) && Storable(r.next)
    ensures Storable(H.Advance(w, r).after)
  {
  }

  class Deployment {
    const service: Service

    /** What each request between the two calls of Complete holds. */
    var held: map<nat, Todo>

    /** One client following Next. */
    var walker: H.Walker

    ghost var missed: set<string>
    ghost const start: H.State
    ghost var history: seq<H.Step>

    ghost function Abstract(): H.State
      reads this, service.repo
    {
      H.State(service.repo.Todos(), held, walker, missed)
    }

    /** The calls so far are a history that leads from the start to where the deployment is. */
    ghost predicate Valid()
      reads this, service.repo
    {
      && service.repo.Valid()
      && (forall c :: c in held ==> Kept(held[c]))
      && Storable(walker.after)
      && H.Lifecycle(start) && start.found == map[] && start.walker == H.NEW_WALK && start.missed == {}
      && H.Runs(start, history) && H.Final(start, history) == Abstract()
    }

    constructor (service: Service)
      requires service.repo.Valid() && forall id :: id in service.repo.Todos() ==> WellFormed(service.repo.Todos()[id])
      ensures Valid() && this.service == service && history == []
      ensures start == H.State(service.repo.Todos(), map[], H.NEW_WALK, {})
    {
      this.service := service;
      held, walker, missed, history := map[], H.NEW_WALK, {}, [];
      start := H.State(service.repo.Todos(), map[], H.NEW_WALK, {});
      new;
      PG.AsStoreMeaning(service.repo.rows);
    }

    /** Create with an id the generator has not given out before. */
    method Create(title: string, newID: string, now: int, reachable: bool) returns (r: Result<Todo, TodoError>)
      requires Valid() && (Parse(newID).Some? ==> ToText(Parse(newID).value) !in service.repo.Todos())
      modifies this, service.repo
      ensures Valid() && held == old(held) && walker == old(walker)
      ensures r.Ok? ==> Parse(newID).Some?
      ensures r.Ok? ==> history == old(history) + [H.Create(ToText(Parse(newID).value), title, PG.ToMicros(now))]
      ensures r.Err? ==> history == old(history) && Abstract() == old(Abstract())
    {
      hide PG.AsStore, PG.Sound, Parse, ToText, Kept, Storable, H.Lifecycle, H.Runs, H.Final, NewTodo, H.Apply, H.Enabled;
      r := service.Create(title, newID, now, reachable);
      if r.Ok? {
        ghost var before := old(Abstract());
        ghost var step := H.Create(ToText(Parse(newID).value), title, PG.ToMicros(now));
        CreateStep(before, step.id, newID, title, now);
        RunExtends(start, history, step);
        missed := H.Apply(before, step).missed;
        history := history + [step];
      }
    }

    /** The first call of Complete. */
    method Find(client: nat, id: string, reachable: bool) returns (r: Result<Todo, TodoError>)
      requires Valid() && client !in held
      modifies this
      ensures Valid() && walker == old(walker)
      ensures r.Ok? ==> Parse(id).Some? && held == old(held)[client := r.value]
      ensures r.Ok? ==> history == old(history) + [H.Find(client, ToText(Parse(id).value))]
      ensures r.Err? ==> history == old(history) && Abstract() == old(Abstract())
    {
      r := service.repo.FindByID(id, reachable);
      if r.Ok? {
        ghost var u := Parse(id).value;
        PG.AsStoreAt(service.repo.rows, u);
        RowIsKept(service.repo.rows, u);
        hide PG.AsStore, PG.Sound, PG.RowTodo, Parse, ToText, Kept, Storable, H.Lifecycle, H.Runs, H.Final;
        ghost var step := H.Find(client, ToText(u));
        RunExtends(start, history, step);
        held := held[client := r.value];
        history := history + [step];
      }
    }

    /** The second call of Complete, with the copy the first one returned; a failure ends the call too. */
    method Save(client: nat, now: int, reachable: bool) returns (r: Result<(), TodoError>)
      requires Valid() && client in held
      modifies this, service.repo
      ensures Valid() && walker == old(walker)
      ensures r.Ok? <==> reachable
      ensures held == old(held) - {client}
      ensures history == old(history) + [if r.Ok? then H.Save(client, PG.ToMicros(now)) else H.GiveUp(client)]
      ensures r.Err? ==> service.repo.Todos() == old(service.repo.Todos())
    {
      hide PG.AsStore, PG.Sound, PG.Saved, PG.IsPgText, PG.ToMicros, Parse, ToText, Kept, Complete, Storable, ValidStatus,
        H.Lifecycle, H.Runs, H.Final, H.Apply, H.Enabled;
      CompleteKept(held[client], now);
      r := service.repo.Save(Complete(held[client], now), reachable);
      ghost var step := if r.Ok? then H.Save(client, PG.ToMicros(now)) else H.GiveUp(client);
      SaveStep(old(Abstract()), client, PG.ToMicros(now));
      GiveUpStep(old(Abstract()), client);
      RunExtends(start, history, step);
      held := held - {client};
      history := history + [step];
    }

    /** One page of the walk. */
    method List(limit: int, reachable: bool) returns (r: Result<PageResult, TodoError>)
      requires Valid() && !walker.done
      modifies this
      ensures Valid() && held == old(held)
      ensures r.Ok? <==> reachable
      ensures r.Ok? ==> walker == H.Advance(old(walker), r.value) && history == old(history) + [H.List(limit)]
      ensures r.Err? ==> history == old(history) && Abstract() == old(Abstract())
    {
      hide PG.AsStore, PG.Sound, Parse, Kept, Storable, H.Lifecycle, H.Runs, H.Final, Page, PG.CursorOf, PG.Bound,
        H.Apply, H.Enabled, H.Advance, Clamp;
      StorableBound(walker.after);
      NextIsStorable(service.repo.rows, walker.after, Clamp(limit));
      r := service.List(walker.after, limit, reachable);
      if r.Ok? {
        ghost var step := H.List(limit);
        ListStep(Abstract(), limit);
        AdvanceStorable(walker, r.value);
        RunExtends(start, history, step);
        walker := H.Advance(walker, r.value);
        history := history + [step];
      }
    }

    /** Whatever calls have been made and however they were interleaved: the rows are todos that were
        never deleted, reopened or retitled; what was completed is unchanged if no two calls of Complete
        on one todo overlapped; and the walk is in order, without repetition, and complete once finished. */
    lemma Promises()
      requires Valid()
      ensures H.Lifecycle(Abstract()) && H.StoreEvolves(start.store, service.repo.Todos())
      ensures H.NonOverlapping(start, history) ==>
        H.KeepsThroughout(start, history) && H.KeepsCompleted(start.store, service.repo.Todos())
      ensures Ascending(TodoLess, walker.returned)
      ensures walker.done ==> forall id :: id in start.store ==> H.Returned(walker, id)
      ensures walker.done ==> forall id :: id in service.repo.Todos() ==> (H.Returned(walker, id) <==> id !in missed)
    {
      assert H.Current(start);
      hide H.Lifecycle, H.Runs, H.Final, H.Returned, TodoLess, Kept, Storable, PG.Sound, PG.AsStore, H.NonOverlapping,
        H.KeepsCompleted, H.KeepsThroughout, H.Current;
      H.LifecycleSafety(start, history);
      if H.NonOverlapping(start, history) { H.FirstCompletionWins(start, history); }
      H.WalkUnderConcurrency(start, history);
    }
  }
}
