/** The in-memory fake of internal/todo/todotest/repository.go. */
module MemoryRepository {
  import opened Wrappers
  import opened Ordering
  import opened Uuids
  import opened Todos
  import opened Paging

  /** sort.Slice's comparison. */
  predicate SortsBefore(a: Todo, b: Todo) {
    if a.createdAt == b.createdAt then TextLess(a.id, b.id) else a.createdAt < b.createdAt
  }

  predicate AfterCursor(t: Todo, c: Cursor) {
    if t.createdAt == c.createdAt then TextLess(c.id, t.id) else t.createdAt > c.createdAt
  }

  class Repository {
    var todos: Store

    ghost predicate Valid()
      reads this
    {
      Keyed(todos)
    }

    constructor ()
      ensures todos == map[] && Valid()
    {
      todos := map[];
    }

    method Save(t: Todo)
      requires Valid()
      modifies this
      ensures Valid() && todos == old(todos)[t.id := t]
    {
      todos := todos[t.id := t];
    }

    method FindByID(id: string) returns (r: Result<Todo, TodoError>)
      ensures r == if id in todos then Ok(todos[id]) else Err(NotFound)
    {
      if id !in todos {
        return Err(NotFound);
      }
      return Ok(todos[id]);
    }

    /** The map's values in whatever order iteration yields them. */
    method Collect() returns (all: seq<Todo>)
      requires Valid()
      ensures SameElements(all, todos.Values)
      ensures forall i, j :: 0 <= i < j < |all| ==> all[i] != all[j]
    {
      all := [];
      var left := todos.Keys;
      while left != {}
        invariant left <= todos.Keys
        invariant forall i :: 0 <= i < |all| ==> all[i].id in todos && all[i].id !in left && todos[all[i].id] == all[i]
        invariant forall id :: id in todos && id !in left ==> todos[id] in all
        invariant forall i, j :: 0 <= i < j < |all| ==> all[i] != all[j]
        decreases left
      {
        var id :| id in left;
        ghost var before := all;
        all := all + [todos[id]];
        left := left - {id};
        assert forall t :: t in before ==> t in all;
        assert all[|all| - 1] == todos[id];
      }
    }

    /** Sort, skip to the cursor, window: the page of the shared contract, whatever order the map
        was iterated in. */
    method List(after: Option<Cursor>, limit: int) returns (r: PageResult)
      requires Valid()
      ensures r == Page(todos, after, limit)
    {
      hide Beyond, SortsBefore, TodoLess;
      var all := Collect();
      StoreOrdered(todos);
      SortsLikeTodoLess(todos.Values);
      all := Sort(SortsBefore, all, todos.Values);

      var start := Skip(all, after);
      var window := all[start..];

      var next: Option<Cursor> := None;
      if limit > 0 && |window| > limit {
        window := window[..limit];
        var last := window[|window| - 1];
        next := Some(Cursor(last.createdAt, last.id));
      }
      return PageResult(window, next);
    }
  }

  /** The skip loop: everything up to and including the cursor position. */
  method Skip(all: seq<Todo>, after: Option<Cursor>) returns (start: nat)
    ensures start <= |all| && all[start..] == Beyond(all, after)
  {
    start := 0;
    if after.Some? {
      while start < |all| && !AfterCursor(all[start], after.value)
        invariant 0 <= start <= |all|
        invariant Beyond(all, after) == Beyond(all[start..], after)
      {
        assert all[start..][1..] == all[start + 1..];
        assert !Past(all[start], after);
        start := start + 1;
      }
    }
    assert start < |all| ==> Past(all[start..][0], after);
  }

  /** The fake's comparison sorts like the shared order. */
  lemma SortsLikeTodoLess(all: set<Todo>)
    requires StrictOn(TodoLess, all)
    ensures StrictOn(SortsBefore, all) && Sorted(SortsBefore, all) == Sorted(TodoLess, all)
  {
    assert forall a, b :: SortsBefore(a, b) <==> TodoLess(a, b);
    hide SortsBefore, TodoLess;
    ListsUnique(TodoLess, Sorted(SortsBefore, all), Sorted(TodoLess, all), all);
  }
}
