/** The todo entity and its lifecycle (internal/todo/todo.go).  Times are integer nanoseconds. */
module Todos {
  import opened Wrappers
  import opened Text

  const MAX_TITLE_LENGTH := 200
  const OPEN := "open"
  const COMPLETED := "completed"

  datatype Todo = Todo(id: string, title: string, status: string, createdAt: int, completedAt: Option<int>)

  datatype TodoError = EmptyTitle | TitleTooLong | NotFound | InvalidCursor | StoreFailure

  predicate ValidStatus(s: string) { s == OPEN || s == COMPLETED }

  function NewTodo(id: string, title: string, now: int): Result<Todo, TodoError> {
    var trimmed := TrimSpace(title);
    if trimmed == "" then Err(EmptyTitle)
    else if |trimmed| > MAX_TITLE_LENGTH then Err(TitleTooLong)
    else Ok(Todo(id, trimmed, OPEN, now, None))
  }

  function Complete(t: Todo, now: int): Todo {
    if t.status == COMPLETED then t
    else t.(status := COMPLETED, completedAt := Some(now))
  }

  /** What every stored todo satisfies. */
  predicate WellFormed(t: Todo) {
    && ValidStatus(t.status)
    && (t.status == COMPLETED <==> t.completedAt.Some?)
    && 1 <= |t.title| <= MAX_TITLE_LENGTH && IsTrimmed(t.title)
  }

  /** A new todo is well formed, open, timestamped and carries the trimmed title; a title is refused exactly
      when its trimmed form is empty or too long. */
  lemma NewTodoMeaning(id: string, title: string, now: int)
    ensures NewTodo(id, title, now).Ok? <==> 1 <= |TrimSpace(title)| <= 200
    ensures TrimSpace(title) == "" ==> NewTodo(id, title, now) == Err(EmptyTitle)
    ensures |TrimSpace(title)| > 200 ==> NewTodo(id, title, now) == Err(TitleTooLong)
    ensures NewTodo(id, title, now).Ok? ==>
      var t := NewTodo(id, title, now).value;
      WellFormed(t) && t.id == id && t.createdAt == now && t.status == "open" && t.title == TrimSpace(title)
  {
    var before, after := TrimSpaceTrims(title);
    TrimmedIsFixed(TrimSpace(title));
  }

  /** Completing an open todo stamps it and keeps everything else; it is idempotent, and the first completion
      time wins. */
  lemma CompleteMeaning(t: Todo, now: int, later: int)
    requires WellFormed(t)
    ensures var c := Complete(t, now);
      && WellFormed(c) && c.status == "completed"
      && c.completedAt == (if t.status == "completed" then t.completedAt else Some(now))
      && c.id == t.id && c.title == t.title && c.createdAt == t.createdAt
      && (t.status == COMPLETED ==> c == t)
      && Complete(c, later) == c
  {
  }
}
