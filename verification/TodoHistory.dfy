/** Concurrent clients of the todo service: Create, the two-step (find, then save) Complete and a
    page walk, interleaved step by step (internal/todo/service.go).  Each repository call is one
    atomic step; Create's single store write is one step with any clock reading.  A Complete whose save
    fails gives up: the call is over and has written nothing. */
module TodoHistory {
  import opened Wrappers
  import opened Ordering
  import opened Todos
  import opened Paging

  /** One client's page walk so far. */
  datatype Walker = Walker(after: Option<Cursor>, returned: seq<Todo>, done: bool)

  datatype State = State(
    store: Store,
    /** what each client in the middle of Complete has found */
    found: map<nat, Todo>,
    walker: Walker,
    /** history: the ids created at a position the walk had already passed */
    missed: set<string>)

  datatype Step =
    | Create(id: string, title: string, now: int)
    | Find(client: nat, id: string)
    | Save(client: nat, now: int)
    | GiveUp(client: nat)
    | List(limit: int)

  /** The walk is already past this position. */
  predicate Reached(w: Walker, c: Cursor) {
    w.done || (w.after.Some? && !Before(w.after.value, c))
  }

  /** The client keeps the page and follows Next. */
  function Advance(w: Walker, r: PageResult): Walker {
    Walker(if r.next.None? then w.after else r.next, w.returned + r.todos, r.next.None?)
  }

  ghost predicate Enabled(s: State, step: Step) {
    match step
    case Create(id, _, _) => id !in s.store
    case Find(client, _) => client !in s.found
    case Save(client, _) => client in s.found
    case GiveUp(client) => client in s.found
    case List(_) => !s.walker.done && Keyed(s.store)
  }

  ghost function Apply(s: State, step: Step): State
    requires Enabled(s, step)
  {
    match step
    case Create(id, title, now) =>
      (match NewTodo(id, title, now)
       case Err(_) => s
       case Ok(t) =>
         s.(store := s.store[id := t],
            missed := if Reached(s.walker, Pos(t)) then s.missed + {id} else s.missed))
    case Find(client, id) =>
      if id in s.store then s.(found := s.found[client := s.store[id]]) else s
    case Save(client, now) =>
      var t := s.found[client];
      s.(store := s.store[t.id := Complete(t, now)], found := s.found - {client})
    case GiveUp(client) => s.(found := s.found - {client})
    case List(limit) =>
      s.(walker := Advance(s.walker, Page(s.store, s.walker.after, Clamp(limit))))
  }

  ghost predicate Runs(s: State, steps: seq<Step>)
    decreases steps
  {
    steps == [] || (Enabled(s, steps[0]) && Runs(Apply(s, steps[0]), steps[1..]))
  }

  ghost function Final(s: State, steps: seq<Step>): State
    requires Runs(s, steps)
    decreases steps
  {
    if steps == [] then s else Final(Apply(s, steps[0]), steps[1..])
  }

  // ----- lifecycle -----

  /** What one stored version of a todo may become. */
  predicate Evolves(t: Todo, t': Todo) {
    && t'.id == t.id && t'.createdAt == t.createdAt && t'.title == t.title
    && (t.status == COMPLETED ==> t'.status == COMPLETED)
  }

  ghost predicate Lifecycle(s: State) {
    && Keyed(s.store)
    && (forall id :: id in s.store ==> WellFormed(s.store[id]))
    && (forall c :: c in s.found ==>
          s.found[c].id in s.store && WellFormed(s.found[c]) && Evolves(s.found[c], s.store[s.found[c].id]))
  }

  ghost predicate StoreEvolves(a: Store, b: Store) {
    forall id :: id in a ==> id in b && Evolves(a[id], b[id])
  }

  lemma StepKeepsLifecycle(s: State, step: Step)
    requires Lifecycle(s) && Enabled(s, step)
    ensures Lifecycle(Apply(s, step)) && StoreEvolves(s.store, Apply(s, step).store)
  {
    match step
    case Create(id, title, now) => NewTodoMeaning(id, title, now);
    case Find(_, _) =>
    case Save(client, now) => CompleteMeaning(s.found[client], now, now);
    case GiveUp(_) =>
    case List(_) =>
  }

  /** Through every interleaving every stored todo stays well formed, keeps its id, title and creation
      time, is never deleted and never reopened. */
  lemma {:induction false} LifecycleSafety(s: State, steps: seq<Step>)
    requires Lifecycle(s) && Runs(s, steps)
    ensures Lifecycle(Final(s, steps)) && StoreEvolves(s.store, Final(s, steps).store)
    decreases steps
  {
    hide Lifecycle, Apply, Enabled;
    if steps != [] {
      StepKeepsLifecycle(s, steps[0]);
      LifecycleSafety(Apply(s, steps[0]), steps[1..]);
    }
  }

  // ----- completion time -----

  /** The completion time a save writes: the client's own copy decides. */
  function Written(t: Todo, now: int): Option<int> {
    if t.status == COMPLETED then t.completedAt else Some(now)
  }

  /** A save leaves an already completed todo alone exactly when it writes the instant that is stored:
      an open copy writes the clock's, a completed copy its own, however old. */
  lemma SaveOverwritesExactly(s: State, client: nat, now: int)
    requires Lifecycle(s) && client in s.found && s.store[s.found[client].id].status == COMPLETED
    ensures var id := s.found[client].id;
      Apply(s, Save(client, now)).store[id] == s.store[id] <==>
        s.store[id].completedAt == Written(s.found[client], now)
  {
  }

  /** The client's copy is no longer the stored one. */
  predicate Stale(s: State, client: nat)
    requires client in s.found
  {
    s.found[client].id !in s.store || s.store[s.found[client].id] != s.found[client]
  }

  /** Every todo completed before is exactly as it was. */
  ghost predicate KeepsCompleted(a: Store, b: Store) {
    forall id :: id in a && a[id].status == COMPLETED ==> id in b && b[id] == a[id]
  }

  ghost predicate KeepsThroughout(s: State, steps: seq<Step>)
    requires Runs(s, steps)
    decreases steps
  {
    steps == [] || (KeepsCompleted(s.store, Apply(s, steps[0]).store) && KeepsThroughout(Apply(s, steps[0]), steps[1..]))
  }

  /** This step is a save of a stale copy with another instant than the stored one. */
  ghost predicate StaleRewrite(s: State, step: Step) {
    && step.Save? && step.client in s.found && Stale(s, step.client)
    && (s.found[step.client].id in s.store ==>
          s.store[s.found[step.client].id].completedAt != Written(s.found[step.client], step.now))
  }

  ghost predicate NoStaleRewrite(s: State, steps: seq<Step>)
    requires Runs(s, steps)
    decreases steps
  {
    steps == [] || (!StaleRewrite(s, steps[0]) && NoStaleRewrite(Apply(s, steps[0]), steps[1..]))
  }

  /** A stale copy means someone else has completed the todo since, or completed it again. */
  lemma StaleMeansCompleted(s: State, client: nat)
    requires Lifecycle(s) && client in s.found && Stale(s, client)
    ensures s.store[s.found[client].id].status == COMPLETED
    ensures s.store[s.found[client].id].completedAt != s.found[client].completedAt
  {
  }

  lemma StepKeepsCompletedExactly(s: State, step: Step)
    requires Lifecycle(s) && Enabled(s, step)
    ensures KeepsCompleted(s.store, Apply(s, step).store) <==> !StaleRewrite(s, step)
  {
    if step.Save? {
      var t := s.found[step.client];
      if s.store[t.id].status == COMPLETED { SaveOverwritesExactly(s, step.client, step.now); }
      if Stale(s, step.client) { StaleMeansCompleted(s, step.client); }
      assert forall id :: id in s.store && id != t.id ==> Apply(s, step).store[id] == s.store[id];
    }
  }

  /** A run keeps every completed todo as it was, at every step, exactly when none of its saves writes
      a stale copy with another instant than the stored one. */
  lemma {:induction false} CompletionsKeptExactly(s: State, steps: seq<Step>)
    requires Lifecycle(s) && Runs(s, steps)
    ensures KeepsThroughout(s, steps) <==> NoStaleRewrite(s, steps)
    ensures KeepsThroughout(s, steps) ==> KeepsCompleted(s.store, Final(s, steps).store)
    decreases steps
  {
    if steps != [] {
      StepKeepsLifecycle(s, steps[0]);
      StepKeepsCompletedExactly(s, steps[0]);
      hide Lifecycle, Apply, Enabled, StaleRewrite;
      CompletionsKeptExactly(Apply(s, steps[0]), steps[1..]);
    }
  }

  /** No client starts Complete on a todo while another call of Complete on it has neither saved nor
      given up. */
  ghost predicate NonOverlapping(s: State, steps: seq<Step>)
    requires Runs(s, steps)
    decreases steps
  {
    steps == [] ||
    (&& (steps[0].Find? ==> forall c :: c in s.found ==> s.found[c].id != steps[0].id)
     && NonOverlapping(Apply(s, steps[0]), steps[1..]))
  }

  /** What clients have found is current, and no two have found the same todo. */
  ghost predicate Current(s: State) {
    && (forall c :: c in s.found ==> s.found[c].id in s.store && s.store[s.found[c].id] == s.found[c])
    && (forall c, d :: c in s.found && d in s.found && s.found[c].id == s.found[d].id ==> c == d)
  }

  lemma StepStaysCurrent(s: State, step: Step)
    requires Lifecycle(s) && Current(s) && Enabled(s, step)
    requires step.Find? ==> forall c :: c in s.found ==> s.found[c].id != step.id
    ensures Current(Apply(s, step)) && !StaleRewrite(s, step)
  {
    match step
    case Create(_, _, _) =>
    case Find(_, _) =>
    case Save(client, _) => assert s.found[client] == s.store[s.found[client].id];
    case GiveUp(_) =>
    case List(_) =>
  }

  lemma {:induction false} NonOverlappingNeverStale(s: State, steps: seq<Step>)
    requires Lifecycle(s) && Current(s) && Runs(s, steps) && NonOverlapping(s, steps)
    ensures NoStaleRewrite(s, steps)
    decreases steps
  {
    if steps != [] {
      StepKeepsLifecycle(s, steps[0]);
      StepStaysCurrent(s, steps[0]);
      hide Lifecycle, Apply, Enabled, Current, StaleRewrite;
      NonOverlappingNeverStale(Apply(s, steps[0]), steps[1..]);
    }
  }

  /** When Complete calls on one todo do not overlap, its first completion is for ever. */
  lemma FirstCompletionWins(s: State, steps: seq<Step>)
    requires Lifecycle(s) && Current(s) && Runs(s, steps) && NonOverlapping(s, steps)
    ensures KeepsThroughout(s, steps) && KeepsCompleted(s.store, Final(s, steps).store)
  {
    hide Lifecycle, Current, KeepsThroughout, NoStaleRewrite, NonOverlapping, Runs, Final;
    NonOverlappingNeverStale(s, steps);
    CompletionsKeptExactly(s, steps);
  }

  const NEW_WALK := Walker(None, [], false)

  lemma RunUnfolds(s: State, step: Step, rest: seq<Step>)
    requires Enabled(s, step) && Runs(Apply(s, step), rest)
    ensures Runs(s, [step] + rest) && Final(s, [step] + rest) == Final(Apply(s, step), rest)
  {
    hide Apply, Enabled;
    assert ([step] + rest)[1..] == rest;
  }

  /** A store of one todo, with some clients in the middle of completing it. */
  function One(t: Todo, found: map<nat, Todo>): State { State(map["id" := t], found, NEW_WALK, {}) }

  const OPENED := Todo("id", "t", OPEN, 0, None)

  function DoneAt(at: int): Todo { Todo("id", "t", COMPLETED, 0, Some(at)) }

  lemma FindOne(t: Todo, found: map<nat, Todo>, client: nat)
    requires client !in found
    ensures Enabled(One(t, found), Find(client, "id"))
    ensures Apply(One(t, found), Find(client, "id")) == One(t, found[client := t])
  {
  }

  lemma SaveOne(t: Todo, found: map<nat, Todo>, client: nat, now: int)
    requires client in found && found[client].id == "id"
    ensures Enabled(One(t, found), Save(client, now))
    ensures Apply(One(t, found), Save(client, now)) == One(Complete(found[client], now), found - {client})
  {
  }

  /** Two clients find the todo open: the second save replaces the first completion time. */
  lemma OverlappingCompletesOverwrite()
    ensures var steps := [Find(0, "id")] + ([Find(1, "id")] + ([Save(0, 1)] + []));
      && Lifecycle(One(OPENED, map[])) && Runs(One(OPENED, map[]), steps)
      && Final(One(OPENED, map[]), steps) == One(DoneAt(1), map[1 := OPENED])
      && Apply(One(DoneAt(1), map[1 := OPENED]), Save(1, 2)) == One(DoneAt(2), map[])
      && StaleRewrite(One(DoneAt(1), map[1 := OPENED]), Save(1, 2))
  {
    var s0, s1 := One(OPENED, map[]), One(OPENED, map[0 := OPENED]);
    var s2, s3 := One(OPENED, map[0 := OPENED, 1 := OPENED]), One(DoneAt(1), map[1 := OPENED]);
    FindOne(OPENED, map[], 0);
    FindOne(OPENED, map[0 := OPENED], 1);
    assert map[0 := OPENED][1 := OPENED] == map[0 := OPENED, 1 := OPENED];
    SaveOne(OPENED, map[0 := OPENED, 1 := OPENED], 0, 1);
    assert map[0 := OPENED, 1 := OPENED] - {0} == map[1 := OPENED];
    SaveOne(DoneAt(1), map[1 := OPENED], 1, 2);
    assert map[1 := OPENED] - {1} == map[];
    hide Apply, Enabled;
    RunUnfolds(s2, Save(0, 1), []);
    RunUnfolds(s1, Find(1, "id"), [Save(0, 1)] + []);
    RunUnfolds(s0, Find(0, "id"), [Find(1, "id")] + ([Save(0, 1)] + []));
  }

  /** A third client, who found the todo completed before that second save, puts the older time back. */
  lemma StaleCompletedCopyOverwrites()
    ensures var steps := [Find(2, "id")] + ([Save(1, 2)] + []);
      && Runs(One(DoneAt(1), map[1 := OPENED]), steps)
      && Final(One(DoneAt(1), map[1 := OPENED]), steps) == One(DoneAt(2), map[2 := DoneAt(1)])
      && Lifecycle(One(DoneAt(2), map[2 := DoneAt(1)]))
      && Apply(One(DoneAt(2), map[2 := DoneAt(1)]), Save(2, 3)) == One(DoneAt(1), map[])
      && StaleRewrite(One(DoneAt(2), map[2 := DoneAt(1)]), Save(2, 3))
  {
    var s3, s4 := One(DoneAt(1), map[1 := OPENED]), One(DoneAt(1), map[1 := OPENED, 2 := DoneAt(1)]);
    FindOne(DoneAt(1), map[1 := OPENED], 2);
    assert map[1 := OPENED][2 := DoneAt(1)] == map[1 := OPENED, 2 := DoneAt(1)];
    SaveOne(DoneAt(1), map[1 := OPENED, 2 := DoneAt(1)], 1, 2);
    assert map[1 := OPENED, 2 := DoneAt(1)] - {1} == map[2 := DoneAt(1)];
    SaveOne(DoneAt(2), map[2 := DoneAt(1)], 2, 3);
    assert map[2 := DoneAt(1)] - {2} == map[];
    hide Apply, Enabled;
    RunUnfolds(s4, Save(1, 2), []);
    RunUnfolds(s3, Find(2, "id"), [Save(1, 2)] + []);
  }

  // ----- the walk -----

  predicate Returned(w: Walker, id: string) {
    exists t :: t in w.returned && t.id == id
  }

  /** What has been returned is ascending, ends at the cursor, and is stored at the same position. */
  ghost predicate WalkOrdered(s: State) {
    var w := s.walker;
    && Ascending(TodoLess, w.returned)
    && (!w.done ==> (w.after.Some? <==> w.returned != []))
    && (!w.done && w.returned != [] ==> w.after.value == Pos(w.returned[|w.returned| - 1]))
    && (forall t :: t in w.returned ==> t.id in s.store && Pos(s.store[t.id]) == Pos(t))
  }

  /** Returned are exactly the stored todos the walk has passed, but for those created behind it. */
  ghost predicate WalkExact(s: State) {
    && (forall id :: id in s.store ==>
          (Returned(s.walker, id) <==> Reached(s.walker, Pos(s.store[id])) && id !in s.missed))
    && (forall id :: id in s.missed ==> id in s.store && Reached(s.walker, Pos(s.store[id])))
  }

  /** Keeping the walk and every stored position, and recording what appears behind the walk. */
  lemma WalkKept(s: State, s': State)
    requires WalkOrdered(s) && WalkExact(s) && s'.walker == s.walker
    requires forall id :: id in s.store ==>
      id in s'.store && Pos(s'.store[id]) == Pos(s.store[id]) && (id in s'.missed <==> id in s.missed)
    requires forall id :: id in s'.store && id !in s.store ==>
      (id in s'.missed <==> Reached(s.walker, Pos(s'.store[id])))
    requires s'.missed <= s'.store.Keys
    ensures WalkOrdered(s') && WalkExact(s')
  {
    hide Reached, Pos, TodoLess;
    forall id | id in s'.store && id !in s.store ensures !Returned(s.walker, id) {
    }
    hide Returned;
  }

  lemma StoreStepKeepsWalk(s: State, step: Step)
    requires Lifecycle(s) && WalkOrdered(s) && WalkExact(s) && Enabled(s, step) && !step.List?
    ensures WalkOrdered(Apply(s, step)) && WalkExact(Apply(s, step))
  {
    StepKeepsLifecycle(s, step);
    var s' := Apply(s, step);
    hide WalkOrdered, Reached, Before;
    assert s.missed <= s.store.Keys;
    hide WalkExact, Returned;
    WalkKept(s, s');
  }

  lemma PageExtendsOrder(w: Walker, r: PageResult, all: set<Todo>, limit: int)
    requires Ascending(TodoLess, w.returned) && !w.done && (w.after.Some? <==> w.returned != [])
    requires w.returned != [] ==> w.after.value == Pos(w.returned[|w.returned| - 1])
    requires IsPage(r, all, w.after, limit)
    ensures Ascending(TodoLess, w.returned + r.todos)
  {
    var a, b := w.returned, r.todos;
    forall i, j | 0 <= i < j < |a + b| ensures TodoLess((a + b)[i], (a + b)[j]) {
      if i < |a| <= j {
        var last, t := a[|a| - 1], b[j - |a|];
        assert t in b && Past(t, w.after);
        assert Before(Pos(last), Pos(t));
        if i < |a| - 1 {
          assert TodoLess(a[i], last);
          BeforeTransitive(Pos(a[i]), Pos(last), Pos(t));
        }
      }
    }
  }

  lemma ReturnedAfter(w: Walker, r: PageResult, store: Store, id: string)
    requires Keyed(store) && id in store && forall t :: t in r.todos ==> t in store.Values
    ensures Returned(Advance(w, r), id) <==> Returned(w, id) || store[id] in r.todos
  {
    var w' := Advance(w, r);
    assert forall t :: t in w'.returned <==> t in w.returned || t in r.todos;
  }

  /** A page holds exactly the todos the walk passes by taking it. */
  lemma ReachedAfter(w: Walker, r: PageResult, all: set<Todo>, limit: int, t: Todo)
    requires !w.done && IsPage(r, all, w.after, limit) && t in all
    ensures t in r.todos <==> !Reached(w, Pos(t)) && Reached(Advance(w, r), Pos(t))
    ensures Reached(w, Pos(t)) ==> Reached(Advance(w, r), Pos(t))
  {
    var last := if r.todos == [] then t else r.todos[|r.todos| - 1];
    assert r.todos != [] ==> last in r.todos;
    if r.next.Some? {
      var c := r.next.value;
      if w.after.Some? && Before(c, Pos(t)) { BeforeTransitive(w.after.value, c, Pos(t)); }
      if t in r.todos {
        var i :| 0 <= i < |r.todos| && r.todos[i] == t;
        BeforeTotal(c, c);
        if i < |r.todos| - 1 {
          assert TodoLess(t, last);
          if Before(c, Pos(t)) { BeforeTransitive(c, Pos(t), c); }
        }
      }
    }
    hide Before;
  }

  lemma PageKeepsOrdered(s: State, r: PageResult, limit: int)
    requires Keyed(s.store) && WalkOrdered(s) && !s.walker.done && IsPage(r, s.store.Values, s.walker.after, limit)
    ensures WalkOrdered(s.(walker := Advance(s.walker, r)))
  {
    var w := s.walker;
    PageExtendsOrder(w, r, s.store.Values, limit);
    hide Past, TodoLess, Before, Ascending;
    forall t | t in r.todos ensures t.id in s.store && s.store[t.id] == t {
      assert t in s.store.Values;
    }
  }

  lemma PageKeepsExact(s: State, r: PageResult, limit: int)
    requires Keyed(s.store) && WalkExact(s) && !s.walker.done && IsPage(r, s.store.Values, s.walker.after, limit)
    ensures WalkExact(s.(walker := Advance(s.walker, r)))
  {
    hide Past, TodoLess, Before, Ascending, Reached, Returned, Pos, Advance;
    forall id | id in s.store
      ensures Returned(Advance(s.walker, r), id) <==>
        Reached(Advance(s.walker, r), Pos(s.store[id])) && id !in s.missed
      ensures Reached(s.walker, Pos(s.store[id])) ==> Reached(Advance(s.walker, r), Pos(s.store[id]))
    {
      ReturnedAfter(s.walker, r, s.store, id);
      assert s.store[id] in s.store.Values;
      ReachedAfter(s.walker, r, s.store.Values, limit, s.store[id]);
    }
  }

  lemma ListKeepsWalk(s: State, limit: int)
    requires Lifecycle(s) && WalkOrdered(s) && WalkExact(s) && Enabled(s, List(limit))
    ensures WalkOrdered(Apply(s, List(limit))) && WalkExact(Apply(s, List(limit)))
  {
    hide Page, IsPage, WalkOrdered, WalkExact;
    var r := Page(s.store, s.walker.after, Clamp(limit));
    PageMeaning(s.store, s.walker.after, Clamp(limit));
    PageKeepsOrdered(s, r, Clamp(limit));
    PageKeepsExact(s, r, Clamp(limit));
  }

  lemma {:induction false} RunKeepsWalk(s: State, steps: seq<Step>)
    requires Lifecycle(s) && WalkOrdered(s) && WalkExact(s) && Runs(s, steps)
    ensures WalkOrdered(Final(s, steps)) && WalkExact(Final(s, steps)) && Lifecycle(Final(s, steps))
    ensures forall id :: id in s.store && id !in s.missed ==>
      id in Final(s, steps).store && id !in Final(s, steps).missed
    decreases steps
  {
    if steps != [] {
      var step := steps[0];
      StepKeepsLifecycle(s, step);
      if step.List? { ListKeepsWalk(s, step.limit); } else { StoreStepKeepsWalk(s, step); }
      assert forall id :: id in s.store && id !in s.missed ==> id in Apply(s, step).store && id !in Apply(s, step).missed;
      hide Lifecycle, WalkOrdered, WalkExact, Enabled, Apply;
      RunKeepsWalk(Apply(s, step), steps[1..]);
    }
  }

  /** A walk over a store that other clients keep changing: whatever the interleaving, the positions
      returned strictly increase, no todo is returned twice, a finished walk has returned every todo
      stored when it began, and of those created since it lacks exactly the ones created at a position
      it had already passed. */
  lemma WalkUnderConcurrency(s: State, steps: seq<Step>)
    requires Lifecycle(s) && s.walker == NEW_WALK && s.missed == {} && Runs(s, steps)
    ensures var e := Final(s, steps);
      && Ascending(TodoLess, e.walker.returned)
      && (forall i, j :: 0 <= i < j < |e.walker.returned| ==> e.walker.returned[i].id != e.walker.returned[j].id)
      && (e.walker.done ==> forall id :: id in s.store ==> Returned(e.walker, id))
      && (e.walker.done ==> forall id :: id in e.store ==> (Returned(e.walker, id) <==> id !in e.missed))
      && s.store.Keys !! e.missed
  {
    RunKeepsWalk(s, steps);
    var e := Final(s, steps);
    var ts := e.walker.returned;
    forall i, j | 0 <= i < j < |ts| ensures ts[i].id != ts[j].id {
      assert ts[i] in ts && ts[j] in ts && TodoLess(ts[i], ts[j]);
      BeforeTotal(Pos(ts[i]), Pos(ts[i]));
    }
    hide Runs, Final, Before, TodoLess, Lifecycle;
  }
}
