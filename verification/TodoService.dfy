/** The use-cases of internal/todo/service.go over the PostgreSQL repository.  The clock and the id
    generator are parameters, and so is whether the database answers each call. */
module TodoService {
  import opened Wrappers
  import opened Text
  import opened Uuids
  import opened Todos
  import opened Paging
  import PG = PostgresRepository
  import Fake = MemoryRepository

  class Service {
    const repo: PG.Repository

    constructor (repo: PG.Repository)
      ensures this.repo == repo
    {
      this.repo := repo;
    }

    /** Validates, then stores: on success the store gains exactly the new todo. */
    method Create(title: string, newID: string, now: int, reachable: bool) returns (r: Result<Todo, TodoError>)
      requires repo.Valid()
      modifies repo
      ensures repo.Valid()
      ensures TrimSpace(title) == "" ==> r == Err(EmptyTitle)
      ensures |TrimSpace(title)| > 200 ==> r == Err(TitleTooLong)
      ensures 1 <= |TrimSpace(title)| <= 200 ==>
        if Parse(newID).Some? && reachable && '\0' !in TrimSpace(title)
        then r == Ok(Todo(newID, TrimSpace(title), "open", now, None)) else r == Err(StoreFailure)
      ensures r.Ok? ==>
        var cid, at := ToText(Parse(newID).value), PG.ToMicros(now);
        && repo.Todos() == old(repo.Todos())[cid := Todo(cid, TrimSpace(title), "open", at, None)]
        && at % 1000 == 0 && at <= now < at + 1000
        && NewTodo(newID, title, now).Ok?
        && NewTodo(cid, title, at) == Ok(Todo(cid, TrimSpace(title), "open", at, None))
      ensures r.Err? ==> repo.rows == old(repo.rows)
    {
      NewTodoMeaning(newID, title, now);
      var created := NewTodo(newID, title, now);
      if created.Err? {
        return created;
      }
      var saved := repo.Save(created.value, reachable);
      if saved.Err? {
        return Err(saved.error);
      }
      return created;
    }

    /** Find, then save: on success the todo under that id is completed, and a todo that already was
        is left exactly as it was stored. */
    method CompleteTodo(id: string, now: int, findReachable: bool, saveReachable: bool) returns (r: Result<Todo, TodoError>)
      requires repo.Valid()
      modifies repo
      ensures repo.Valid()
      ensures r ==
        if Parse(id).None? then Err(NotFound)
        else if !findReachable then Err(StoreFailure)
        else
          var cid := ToText(Parse(id).value);
          if cid !in old(repo.Todos()) then Err(NotFound)
          else if !saveReachable then Err(StoreFailure)
          else Ok(Complete(old(repo.Todos())[cid], now))
      ensures r.Err? ==> repo.rows == old(repo.rows)
      ensures r.Ok? ==>
        var cid, at := ToText(Parse(id).value), PG.ToMicros(now);
        var was := old(repo.Todos())[cid];
        && repo.Todos() == old(repo.Todos())[cid := Complete(was, at)]
        && at % 1000 == 0 && at <= now < at + 1000
        && (was.status == "completed" ==> r.value == was && repo.Todos() == old(repo.Todos()))
        && (was.status == "open" ==> r.value == was.(status := "completed", completedAt := Some(now)))
        && (was.status == "open" ==> repo.Todos()[cid] == was.(status := "completed", completedAt := Some(at)))
    {
      var found := repo.FindByID(id, findReachable);
      if found.Err? {
        return found;
      }
      ghost var u := Parse(id).value;
      PG.AsStoreAt(repo.rows, u);
      RowIsKept(repo.rows, u);
      CompleteKept(found.value, now);
      hide Kept, PG.AsStore, PG.Sound, PG.IsPgText, PG.RowTodo, PG.Saved, Complete, ToText, Parse;
      var completed := Complete(found.value, now);
      var saved := repo.Save(completed, saveReachable);
      if saved.Err? {
        return Err(saved.error);
      }
      return Ok(completed);
    }

    /** Clamps the limit into [1, MAX_PAGE_SIZE], then delegates. */
    method List(after: Option<Cursor>, limit: int, reachable: bool) returns (r: Result<PageResult, TodoError>)
      requires repo.Valid()
      ensures repo.Valid() && Keyed(repo.Todos())
      ensures after.Some? && Parse(after.value.id).None? ==> r == Err(InvalidCursor)
      ensures (after.None? || Parse(after.value.id).Some?) && !reachable ==> r == Err(StoreFailure)
      ensures (after.None? || Parse(after.value.id).Some?) && reachable ==>
        r == Ok(Page(repo.Todos(), PG.CursorOf(PG.Bound(after)), Clamp(limit)))
      ensures (after.None? || Parse(after.value.id).Some?) && reachable ==>
        && (limit <= 0 ==> r == Ok(Page(repo.Todos(), PG.CursorOf(PG.Bound(after)), 20)))
        && (1 <= limit <= 100 ==> r == Ok(Page(repo.Todos(), PG.CursorOf(PG.Bound(after)), limit)))
        && (limit > 100 ==> r == Ok(Page(repo.Todos(), PG.CursorOf(PG.Bound(after)), 100)))
      ensures r.Ok? ==> |r.value.todos| <= 100
      ensures r.Ok? && r.value.next.Some? ==>
        |r.value.todos| == if limit <= 0 then 20 else if limit > 100 then 100 else limit
      ensures r.Ok? ==> forall i, j :: 0 <= i < j < |r.value.todos| ==>
        var a, b := r.value.todos[i], r.value.todos[j];
        a.createdAt < b.createdAt || (a.createdAt == b.createdAt && TextLess(a.id, b.id))
    {
      hide PG.AsStore, Parse, PG.Bound, PG.CursorOf;
      var clamped := limit;
      if limit <= 0 {
        clamped := DEFAULT_PAGE_SIZE;
      } else if limit > MAX_PAGE_SIZE {
        clamped := MAX_PAGE_SIZE;
      }
      r := repo.List(after, clamped, reachable);
      if r.Ok? {
        ListedMeaning(repo.rows, PG.CursorOf(PG.Bound(after)), clamped);
      }
    }
  }

  /** A page is in ascending order of creation time and, at one instant, of id; it has no more todos than
      the limit, and exactly that many when a cursor follows. */
  lemma ListedMeaning(rows: PG.Table, after: Option<Cursor>, limit: int)
    requires PG.Sound(rows) && limit >= 1
    ensures Keyed(PG.AsStore(rows))
    ensures var r := Page(PG.AsStore(rows), after, limit);
      && |r.todos| <= limit && (r.next.Some? ==> |r.todos| == limit)
      && forall i, j :: 0 <= i < j < |r.todos| ==>
           var a, b := r.todos[i], r.todos[j];
           a.createdAt < b.createdAt || (a.createdAt == b.createdAt && TextLess(a.id, b.id))
  {
    PG.AsStoreMeaning(rows);
    hide PG.AsStore, PG.Sound;
    PageMeaning(PG.AsStore(rows), after, limit);
    hide Page, Past, TextLess;
    var r := Page(PG.AsStore(rows), after, limit);
    forall i, j | 0 <= i < j < |r.todos|
      ensures var a, b := r.todos[i], r.todos[j];
        a.createdAt < b.createdAt || (a.createdAt == b.createdAt && TextLess(a.id, b.id))
    {
      assert TodoLess(r.todos[i], r.todos[j]);
    }
  }

  /** A valid title that no text column holds. */
  lemma NulTitleCannotBeStored(id: string, now: int)
    ensures NewTodo(id, "a\0b", now).Ok? && !PG.IsPgText(TrimSpace("a\0b"))
  {
    var title := "a\0b";
    assert IsTrimmed(title);
    TrimmedIsFixed(title);
    assert title[1] == '\0';
  }

  /** A todo the adapter stores and reads back unchanged. */
  predicate Kept(t: Todo) {
    Parse(t.id).Some? && PG.Saved(t) == t && ValidStatus(t.status) && PG.IsPgText(t.title)
  }

  lemma RowIsKept(rows: PG.Table, u: Uuid)
    requires PG.Sound(rows) && u in rows
    ensures Kept(PG.RowTodo(rows[u])) && Parse(PG.RowTodo(rows[u]).id) == Some(u)
  {
    ParsePrinted(u);
  }

  /** Completing a todo that was read and saving it only moves the clock reading to microseconds. */
  lemma CompleteKept(t: Todo, now: int)
    requires Kept(t)
    ensures var c := Complete(t, now);
      && Parse(c.id).Some? && c.status in {"open", "completed"} && '\0' !in c.title
      && PG.Saved(c).id == t.id && PG.Saved(c) == Complete(t, PG.ToMicros(now))
  {
    hide Parse, ToText;
  }

  /** A position the adapter can hold without loss: a canonical uuid and a microsecond time. */
  ghost predicate Storable(after: Option<Cursor>) {
    after.Some? ==> Canonical(after.value.id) && PG.IsMicros(after.value.createdAt)
  }

  lemma StorableBound(after: Option<Cursor>)
    requires Storable(after)
    ensures after.Some? ==> Parse(after.value.id).Some?
    ensures PG.CursorOf(PG.Bound(after)) == after
  {
    if after.Some? { CanonicalMeaning(after.value.id); }
  }

  /** The rows the adapter asks for: one more than the limit, in 32 bits. */
  function PageLimit(limit: int): int { PG.Int32(PG.Int32(limit) + 1) }

  /** A window of a prefix is the window of the whole exactly when the prefix is the whole or reaches
      past the limit. */
  lemma PrefixWindow(w: seq<Todo>, limit: int, pageLimit: nat)
    ensures Window(PG.Prefix(w, pageLimit), limit) == Window(w, limit) <==> |w| <= pageLimit || 0 < limit < pageLimit
  {
    var p := PG.Prefix(w, pageLimit);
    if pageLimit < |w| && 0 < limit < pageLimit {
      assert p[..limit] == w[..limit];
    }
  }

  lemma PageLimitFits(limit: int)
    ensures 0 < limit < PageLimit(limit) <==> 1 <= limit < 0x7FFF_FFFF
  {
    hide PG.Int32;
    PG.Int32InRange(limit);
    PageLimitBound(limit);
  }

  lemma PageLimitBound(limit: int)
    ensures PageLimit(limit) <= 0x7FFF_FFFF
  {
  }

  /** A stored todo's position is one the adapter can hold. */
  lemma NextIsStorable(rows: PG.Table, after: Option<Cursor>, limit: int)
    requires PG.Sound(rows)
    ensures Keyed(PG.AsStore(rows)) && Storable(Page(PG.AsStore(rows), after, limit).next)
  {
    PG.AsStoreMeaning(rows);
    var store := PG.AsStore(rows);
    var r := Page(store, after, limit);
    if r.next.Some? {
      PageMeaning(store, after, limit);
      var last := r.todos[|r.todos| - 1];
      assert last in store.Values;
      var u :| u in rows && last == PG.RowTodo(rows[u]);
      assert Canonical(last.id);
    }
  }

  /** A position a nanosecond after a todo: the fake is past it, the adapter, which drops the nanosecond,
      returns it again. */
  lemma RoundedPositionRepeats(u: Uuid, v: Uuid)
    requires UuidLess(u, v)
    ensures var t, after := Todo(ToText(v), "t", OPEN, 0, None), Some(Cursor(1, ToText(u)));
      && Parse(ToText(u)).Some?
      && !SamePlace(map[t.id := t], after, PG.CursorOf(PG.Bound(after)))
      && !Past(t, after) && Past(t, PG.CursorOf(PG.Bound(after)))
  {
    ParsePrinted(u);
    OrderIsomorphism(u, v);
    hide ToText, Parse, TextLess, UuidLess;
    var t, after := Todo(ToText(v), "t", OPEN, 0, None), Some(Cursor(1, ToText(u)));
    assert PG.CursorOf(PG.Bound(after)) == Some(Cursor(0, ToText(u)));
    assert t in map[t.id := t].Values by { assert map[t.id := t][t.id] == t; }
  }

  /** The fake and the adapter on the same todos, for every position and limit.  A position that is no
      uuid only the adapter refuses.  In the range of limits the adapter was written for, they return
      the same page and cursor exactly when no todo lies between the position and what the adapter
      keeps of it, so always for positions it can hold; and for those, at any other limit, exactly when
      all that is left fits the 32-bit number of rows asked for.  Every cursor is one both can hold. */
  method ListBoth(mem: Fake.Repository, pg: PG.Repository, after: Option<Cursor>, limit: int)
      returns (a: PageResult, b: Result<PageResult, TodoError>)
    requires mem.Valid() && pg.Valid() && mem.todos == pg.Todos()
    ensures Storable(a.next)
    ensures after.Some? && Parse(after.value.id).None? ==> b == Err(InvalidCursor)
    ensures (after.None? || Parse(after.value.id).Some?) && 1 <= limit < 0x7FFF_FFFF ==>
      (b == Ok(a) <==> SamePlace(mem.todos, after, PG.CursorOf(PG.Bound(after))))
    ensures Keyed(mem.todos)
    ensures Storable(after) ==>
      (b == Ok(a) <==> 1 <= limit < 0x7FFF_FFFF || |Beyond(Listing(mem.todos), after)| <= PageLimit(limit))
  {
    a := mem.List(after, limit);
    b := pg.List(after, limit, true);
    ghost var rows := pg.rows;
    NextIsStorable(rows, after, limit);
    if Storable(after) { StorableBound(after); }
    hide PG.AsStore, PG.Sound, Parse, PG.CursorOf, PG.Bound, PG.Int32, Storable, Beyond, Listing, Window, SamePlace;
    PageLimitFits(limit);
    if after.None? || Parse(after.value.id).Some? {
      ghost var bound := PG.CursorOf(PG.Bound(after));
      if limit >= 1 { SamePageExactly(mem.todos, after, bound, limit); }
      if PageLimit(limit) >= 0 { PrefixWindow(Beyond(Listing(mem.todos), bound), limit, PageLimit(limit)); }
    }
  }
}
