/** The PostgreSQL adapter: internal/todo/postgres/repository.go and mapping.go over the three
    queries of internal/todo/postgres/queries/todos.sql, on a table keyed by uuid.  Every method
    takes whether the database is reachable. */
module PostgresRepository {
  import opened Wrappers
  import opened Ordering
  import opened Uuids
  import opened Todos
  import opened Paging

  datatype Row = Row(id: Uuid, title: string, status: string, createdAt: int, completedAt: Option<int>)

  type Table = map<Uuid, Row>

  /** timestamptz keeps microseconds. */
  function ToMicros(ns: int): int { ns - ns % 1000 }

  /** `kept` is the whole microsecond that `ns` falls in. */
  predicate Microsecond(kept: int, ns: int) {
    kept % 1000 == 0 && kept <= ns < kept + 1000
  }

  predicate IsMicros(ns: int) { ns % 1000 == 0 }

  /** A text column holds every string but those with U+0000, which NewTodo accepts in a title. */
  predicate IsPgText(s: string) { '\0' !in s }

  /** The primary key, the CHECK constraint on status, and what the columns can hold. */
  ghost predicate Sound(rows: Table) {
    forall u :: u in rows ==>
      && rows[u].id == u && ValidStatus(rows[u].status) && IsPgText(rows[u].title) && IsMicros(rows[u].createdAt)
      && (rows[u].completedAt.Some? ==> IsMicros(rows[u].completedAt.value))
  }

  function RowTodo(row: Row): Todo {
    Todo(ToText(row.id), row.title, row.status, row.createdAt, row.completedAt)
  }

  /** fromRow refuses a status the domain does not know. */
  function FromRow(row: Row): Result<Todo, TodoError> {
    if ValidStatus(row.status) then Ok(RowTodo(row)) else Err(StoreFailure)
  }

  ghost function Ids(rows: Table): set<string> {
    set u | u in rows :: ToText(u)
  }

  lemma IdsParse(rows: Table, id: string)
    requires id in Ids(rows)
    ensures Parse(id).Some? && Parse(id).value in rows && ToText(Parse(id).value) == id
  {
    var u :| u in rows && ToText(u) == id;
    ParsePrinted(u);
  }

  /** The table as the domain sees it: todos under their canonical ids. */
  ghost function AsStore(rows: Table): Store {
    map id | id in Ids(rows) :: IdsParse(rows, id); RowTodo(rows[Parse(id).value])
  }

  lemma AsStoreAt(rows: Table, u: Uuid)
    ensures ToText(u) in AsStore(rows) <==> u in rows
    ensures u in rows ==> AsStore(rows)[ToText(u)] == RowTodo(rows[u])
  {
    ParsePrinted(u);
    if ToText(u) in Ids(rows) { IdsParse(rows, ToText(u)); }
  }

  lemma AsStoreMeaning(rows: Table)
    requires Sound(rows)
    ensures Keyed(AsStore(rows))
    ensures forall t :: t in AsStore(rows).Values <==> exists u :: u in rows && t == RowTodo(rows[u])
  {
    var store := AsStore(rows);
    forall u | u in rows ensures RowTodo(rows[u]) in store.Values {
      AsStoreAt(rows, u);
    }
    forall id | id in store
      ensures store[id].id == id && exists u :: u in rows && store[id] == RowTodo(rows[u])
    {
      IdsParse(rows, id);
    }
  }

  lemma AsStoreUpdate(rows: Table, u: Uuid, row: Row)
    requires row.id == u
    ensures AsStore(rows[u := row]) == AsStore(rows)[ToText(u) := RowTodo(row)]
  {
    var rows' := rows[u := row];
    var a, b := AsStore(rows'), AsStore(rows)[ToText(u) := RowTodo(row)];
    forall id | id in a ensures id in b && a[id] == b[id] {
      IdsParse(rows', id);
      var v := Parse(id).value;
      hide AsStore, ToText, Parse;
      AsStoreAt(rows, v);
      AsStoreAt(rows', v);
      if id == ToText(u) { TextInjective(u, v); }
    }
    forall id | id in b ensures id in a {
      if id != ToText(u) { IdsParse(rows, id); }
      var v := if id == ToText(u) then u else Parse(id).value;
      hide AsStore, ToText, Parse;
      AsStoreAt(rows', v);
    }
  }

  // ----- ListTodos -----

  predicate RowLess(a: Row, b: Row) {
    if a.createdAt == b.createdAt then UuidLess(a.id, b.id) else a.createdAt < b.createdAt
  }

  /** The row-value comparison of the seek. */
  predicate RowPast(row: Row, after: Option<(int, Uuid)>) {
    after.None? ||
    if row.createdAt == after.value.0 then UuidLess(after.value.1, row.id) else row.createdAt > after.value.0
  }

  function CursorOf(after: Option<(int, Uuid)>): Option<Cursor> {
    if after.None? then None else Some(Cursor(after.value.0, ToText(after.value.1)))
  }

  lemma RowOrder(a: Row, b: Row)
    ensures RowLess(a, b) <==> TodoLess(RowTodo(a), RowTodo(b))
  {
    OrderIsomorphism(a.id, b.id);
  }

  lemma RowSeek(row: Row, after: Option<(int, Uuid)>)
    ensures RowPast(row, after) <==> Past(RowTodo(row), CursorOf(after))
  {
    if after.Some? { OrderIsomorphism(after.value.1, row.id); }
  }

  ghost function Selected(rows: Table, after: Option<(int, Uuid)>): set<Row> {
    set u | u in rows && RowPast(rows[u], after) :: rows[u]
  }

  lemma RowsOrdered(rows: Table, after: Option<(int, Uuid)>)
    requires Sound(rows)
    ensures StrictOn(RowLess, Selected(rows, after))
  {
    forall x, y | x in Selected(rows, after) && y in Selected(rows, after)
      ensures !RowLess(x, x) && (x == y || RowLess(x, y) || RowLess(y, x))
    {
      LexTotal(ByteLess, x.id, y.id);
    }
    forall x, y, z | RowLess(x, y) && RowLess(y, z) ensures RowLess(x, z) {
      if x.createdAt == y.createdAt == z.createdAt { LexTransitive(ByteLess, x.id, y.id, z.id); }
    }
  }

  function Converted(rs: seq<Row>): seq<Todo> {
    seq(|rs|, i requires 0 <= i < |rs| => RowTodo(rs[i]))
  }

  /** The query's rows, converted, are what the shared contract leaves beyond the position. */
  lemma SelectedIsBeyond(rows: Table, after: Option<(int, Uuid)>)
    requires Sound(rows)
    ensures StrictOn(RowLess, Selected(rows, after)) && Keyed(AsStore(rows))
    ensures Converted(Sorted(RowLess, Selected(rows, after))) == Beyond(Listing(AsStore(rows)), CursorOf(after))
  {
    RowsOrdered(rows, after);
    AsStoreMeaning(rows);
    var store, c := AsStore(rows), CursorOf(after);
    var rs := Sorted(RowLess, Selected(rows, after));
    var ts, w := Converted(rs), Beyond(Listing(store), c);
    var all := set t | t in store.Values && Past(t, c);
    StoreOrdered(store);
    BeyondLists(Listing(store), store.Values, c);
    hide Beyond, Listing, TodoLess, Past, AsStore, RowLess, Selected;
    assert Lists(TodoLess, w, all);
    forall i, j | 0 <= i < j < |ts| ensures TodoLess(ts[i], ts[j]) {
      assert RowLess(rs[i], rs[j]);
      RowOrder(rs[i], rs[j]);
    }
    forall t ensures t in ts <==> t in all {
      ConvertedElements(rows, after, rs, t);
    }
    ListsUnique(TodoLess, ts, w, all);
  }

  lemma ConvertedElements(rows: Table, after: Option<(int, Uuid)>, rs: seq<Row>, t: Todo)
    requires Sound(rows) && SameElements(rs, Selected(rows, after))
    ensures t in Converted(rs) <==> t in AsStore(rows).Values && Past(t, CursorOf(after))
  {
    AsStoreMeaning(rows);
    hide AsStore, RowTodo, Past, RowPast;
    if t in Converted(rs) {
      var i :| 0 <= i < |rs| && RowTodo(rs[i]) == t;
      assert rs[i] in rs && rs[i] in Selected(rows, after);
      var u :| u in rows && RowPast(rows[u], after) && rows[u] == rs[i];
      RowSeek(rows[u], after);
    }
    if t in AsStore(rows).Values && Past(t, CursorOf(after)) {
      var u :| u in rows && t == RowTodo(rows[u]);
      RowSeek(rows[u], after);
      assert rows[u] in Selected(rows, after) && rows[u] in rs;
      var i :| 0 <= i < |rs| && rs[i] == rows[u];
      assert Converted(rs)[i] == t;
    }
  }

  /** A 32-bit conversion. */
  function Int32(x: int): int { (x + 0x8000_0000) % 0x1_0000_0000 - 0x8000_0000 }

  lemma Int32InRange(limit: int)
    ensures 1 <= limit < 0x7FFF_FFFF ==> Int32(Int32(limit) + 1) == limit + 1
  {
  }

  function Prefix<T>(s: seq<T>, n: nat): seq<T> {
    if n < |s| then s[..n] else s
  }

  class Repository {
    var rows: Table

    ghost predicate Valid()
      reads this
    {
      Sound(rows)
    }

    ghost function Todos(): Store
      reads this
    {
      AsStore(rows)
    }

    constructor ()
      ensures Valid() && Todos() == map[]
    {
      rows := map[];
      new;
      assert Todos().Keys == {};
    }

    /** Insert or replace; refused for an id that is no uuid, a status or a title the table rejects, or
        an outage. */
    method Save(t: Todo, reachable: bool) returns (r: Result<(), TodoError>)
      requires Valid()
      modifies this
      ensures Valid()
      ensures r.Ok? <==> Parse(t.id).Some? && reachable && t.status in {"open", "completed"} && '\0' !in t.title
      ensures r.Ok? ==>
        var id := ToText(Parse(t.id).value);
        && id in Todos() && Todos() == old(Todos())[id := Todos()[id]]
        && Todos()[id].id == id && Todos()[id].title == t.title && Todos()[id].status == t.status
        && Microsecond(Todos()[id].createdAt, t.createdAt)
        && (Todos()[id].completedAt.Some? <==> t.completedAt.Some?)
        && (t.completedAt.Some? ==> Microsecond(Todos()[id].completedAt.value, t.completedAt.value))
      ensures r.Ok? ==> Todos() == old(Todos())[Saved(t).id := Saved(t)]
      ensures r.Err? ==> r.error == StoreFailure && rows == old(rows)
    {
      hide AsStore, Parse, ToText;
      var parsed := Parse(t.id);
      if parsed.None? || !reachable || !ValidStatus(t.status) || !IsPgText(t.title) {
        return Err(StoreFailure);
      }
      var u := parsed.value;
      var row := Row(u, t.title, t.status, ToMicros(t.createdAt), MicrosOf(t.completedAt));
      AsStoreUpdate(rows, u, row);
      rows := rows[u := row];
      return Ok(());
    }

    /** A malformed id is not found; an outage is a failure; otherwise the row under that uuid. */
    method FindByID(id: string, reachable: bool) returns (r: Result<Todo, TodoError>)
      requires Valid()
      ensures r ==
        if Parse(id).None? then Err(NotFound)
        else if !reachable then Err(StoreFailure)
        else
          var canonical := ToText(Parse(id).value);
          if canonical in Todos() then Ok(Todos()[canonical]) else Err(NotFound)
    {
      var parsed := Parse(id);
      if parsed.None? {
        return Err(NotFound);
      }
      if !reachable {
        return Err(StoreFailure);
      }
      AsStoreAt(rows, parsed.value);
      if parsed.value !in rows {
        return Err(NotFound);
      }
      return FromRow(rows[parsed.value]);
    }

    /** The ListTodos query: seek, order, limit. */
    method ListTodos(after: Option<(int, Uuid)>, pageLimit: nat) returns (rs: seq<Row>)
      requires Valid()
      ensures StrictOn(RowLess, Selected(rows, after))
      ensures rs == Prefix(Sorted(RowLess, Selected(rows, after)), pageLimit)
    {
      RowsOrdered(rows, after);
      var found: seq<Row> := [];
      var left := rows.Keys;
      while left != {}
        invariant left <= rows.Keys
        invariant forall i :: 0 <= i < |found| ==>
          found[i].id in rows && found[i].id !in left && rows[found[i].id] == found[i] && RowPast(found[i], after)
        invariant forall u :: u in rows && u !in left && RowPast(rows[u], after) ==> rows[u] in found
        invariant forall i, j :: 0 <= i < j < |found| ==> found[i] != found[j]
        decreases left
      {
        var u :| u in left;
        left := left - {u};
        ghost var before := found;
        if RowPast(rows[u], after) {
          found := found + [rows[u]];
          assert found[|found| - 1] == rows[u];
        }
        assert forall x :: x in before ==> x in found;
      }
      assert SameElements(found, Selected(rows, after));
      rs := Sort(RowLess, found, Selected(rows, after));
      if pageLimit < |rs| {
        rs := rs[..pageLimit];
      }
    }

    /** fromRow over the result rows. */
    method Convert(rs: seq<Row>) returns (r: Result<seq<Todo>, TodoError>)
      ensures (forall row :: row in rs ==> ValidStatus(row.status)) ==> r == Ok(Converted(rs))
    {
      var todos: seq<Todo> := [];
      for i := 0 to |rs|
        invariant |todos| == i && forall j :: 0 <= j < i ==> todos[j] == RowTodo(rs[j])
      {
        var t := FromRow(rs[i]);
        if t.Err? {
          assert rs[i] in rs;
          return Err(t.error);
        }
        todos := todos + [t.value];
      }
      assert todos == Converted(rs);
      return Ok(todos);
    }

    /** Query and convert: the first pageLimit todos beyond the position. */
    method Fetch(after: Option<(int, Uuid)>, pageLimit: nat) returns (todos: Result<seq<Todo>, TodoError>)
      requires Valid()
      ensures Keyed(Todos())
      ensures todos == Ok(Prefix(Beyond(Listing(Todos()), CursorOf(after)), pageLimit))
    {
      var rs := ListTodos(after, pageLimit);
      OverFetched(rows, after, pageLimit, rs);
      todos := Convert(rs);
    }

    /** Over-fetches one row to learn whether a page follows.  A cursor id that is no uuid is the
        caller's fault; in the service's range of limits the result is the page of the shared contract. */
    method List(after: Option<Cursor>, limit: int, reachable: bool) returns (r: Result<PageResult, TodoError>)
      requires Valid()
      ensures after.Some? && Parse(after.value.id).None? ==> r == Err(InvalidCursor)
      ensures (after.None? || Parse(after.value.id).Some?) && !reachable ==> r == Err(StoreFailure)
      ensures Keyed(Todos())
      ensures (after.None? || Parse(after.value.id).Some?) && reachable ==>
        var pageLimit := Int32(Int32(limit) + 1);
        r == if pageLimit < 0 then Err(StoreFailure)
             else Ok(Window(Prefix(Beyond(Listing(Todos()), CursorOf(Bound(after))), pageLimit), limit))
      ensures (after.None? || Parse(after.value.id).Some?) && reachable && 1 <= limit < 0x7FFF_FFFF ==>
        r == Ok(Page(Todos(), CursorOf(Bound(after)), limit))
    {
      hide Int32, AsStore, Beyond, Listing, Parse, Selected, RowLess, Sound, Converted, CursorOf;
      AsStoreMeaning(rows);
      var pageLimit := Int32(Int32(limit) + 1);
      Int32InRange(limit);
      if after.Some? && Parse(after.value.id).None? {
        return Err(InvalidCursor);
      }
      var bound := Bound(after);
      if !reachable || pageLimit < 0 {
        return Err(StoreFailure);
      }
      var fetched := Fetch(bound, pageLimit);
      var todos := fetched.value;
      ghost var w := Beyond(Listing(Todos()), CursorOf(bound));
      assert |w| > limit && pageLimit == limit + 1 && limit > 0 ==> todos[..limit] == w[..limit];
      var next: Option<Cursor> := None;
      if limit > 0 && |todos| > limit {
        var last := todos[limit - 1];
        next := Some(Cursor(last.createdAt, last.id));
        todos := todos[..limit];
      }
      return Ok(PageResult(todos, next));
    }
  }

  /** The position the query seeks from: the canonical id, at the whole microsecond. */
  lemma BoundMeaning(after: Cursor)
    requires Parse(after.id).Some?
    ensures var c := CursorOf(Bound(Some(after)));
      c.Some? && c.value.id == ToText(Parse(after.id).value) && Microsecond(c.value.createdAt, after.createdAt)
    ensures CursorOf(Bound(None)) == None
  {
    hide Parse, ToText;
  }

  /** The fetched rows convert, to the first pageLimit todos beyond the position. */
  lemma OverFetched(rows: Table, after: Option<(int, Uuid)>, pageLimit: nat, rs: seq<Row>)
    requires Sound(rows) && StrictOn(RowLess, Selected(rows, after))
    requires rs == Prefix(Sorted(RowLess, Selected(rows, after)), pageLimit)
    ensures forall row :: row in rs ==> ValidStatus(row.status)
    ensures Keyed(AsStore(rows))
    ensures Converted(rs) == Prefix(Beyond(Listing(AsStore(rows)), CursorOf(after)), pageLimit)
  {
    hide Beyond, Listing, AsStore, RowTodo, RowLess, RowPast;
    SelectedIsBeyond(rows, after);
    var all := Sorted(RowLess, Selected(rows, after));
    forall row | row in rs ensures ValidStatus(row.status) {
      assert row in all;
    }
    assert |Converted(all)| == |all|;
    if pageLimit < |all| {
      assert Converted(all[..pageLimit]) == Converted(all)[..pageLimit];
    }
  }

  /** A todo as it reads back once saved: canonical id, microsecond times. */
  function Saved(t: Todo): Todo
    requires Parse(t.id).Some?
  {
    t.(id := ToText(Parse(t.id).value), createdAt := ToMicros(t.createdAt), completedAt := MicrosOf(t.completedAt))
  }

  function MicrosOf(t: Option<int>): Option<int> {
    if t.None? then None else Some(ToMicros(t.value))
  }

  /** The query parameters of a cursor whose id parses. */
  function Bound(after: Option<Cursor>): Option<(int, Uuid)>
    requires after.Some? ==> Parse(after.value.id).Some?
  {
    if after.None? then None else Some((ToMicros(after.value.createdAt), Parse(after.value.id).value))
  }
}
