/** Keyset pagination over (createdAt, id): the page contract of internal/todo/ports.go and
    internal/todo/page.go that both repositories implement, and the walk a client makes. */
module Paging {
  import opened Wrappers
  import opened Ordering
  import opened Uuids
  import opened Todos

  const DEFAULT_PAGE_SIZE := 20
  const MAX_PAGE_SIZE := 100

  datatype Cursor = Cursor(createdAt: int, id: string)

  datatype PageResult = PageResult(todos: seq<Todo>, next: Option<Cursor>)

  type Store = map<string, Todo>

  ghost predicate Keyed(store: Store) {
    forall id :: id in store ==> store[id].id == id
  }

  function Pos(t: Todo): Cursor { Cursor(t.createdAt, t.id) }

  predicate Before(a: Cursor, b: Cursor) {
    if a.createdAt == b.createdAt then TextLess(a.id, b.id) else a.createdAt < b.createdAt
  }

  predicate TodoLess(a: Todo, b: Todo) { Before(Pos(a), Pos(b)) }

  lemma BeforeTotal(a: Cursor, b: Cursor)
    ensures !Before(a, a) && (a == b || Before(a, b) || Before(b, a))
  {
    LexTotal(CharLess, a.id, b.id);
  }

  lemma BeforeTransitive(a: Cursor, b: Cursor, c: Cursor)
    requires Before(a, b) && Before(b, c)
    ensures Before(a, c)
  {
    if a.createdAt == b.createdAt == c.createdAt { LexTransitive(CharLess, a.id, b.id, c.id); }
  }

  lemma StoreOrdered(store: Store)
    requires Keyed(store)
    ensures StrictOn(TodoLess, store.Values)
  {
    forall x, y | x in store.Values && y in store.Values
      ensures !TodoLess(x, x) && (x == y || TodoLess(x, y) || TodoLess(y, x))
    {
      BeforeTotal(Pos(x), Pos(y));
    }
    forall x, y, z | TodoLess(x, y) && TodoLess(y, z) ensures TodoLess(x, z) {
      BeforeTransitive(Pos(x), Pos(y), Pos(z));
    }
  }

  /** The whole collection in order. */
  ghost function Listing(store: Store): seq<Todo>
    requires Keyed(store)
  {
    StoreOrdered(store);
    Sorted(TodoLess, store.Values)
  }

  /** t comes strictly after the position; every todo comes after no position. */
  predicate Past(t: Todo, after: Option<Cursor>) {
    after.None? || Before(after.value, Pos(t))
  }

  /** The listing from the first todo past the position. */
  function Beyond(s: seq<Todo>, after: Option<Cursor>): seq<Todo> {
    if s != [] && !Past(s[0], after) then Beyond(s[1..], after) else s
  }

  /** One page of what is left, with a cursor when something follows. */
  function Window(w: seq<Todo>, limit: int): PageResult {
    if limit > 0 && |w| > limit then PageResult(w[..limit], Some(Pos(w[limit - 1])))
    else PageResult(w, None)
  }

  ghost function Page(store: Store, after: Option<Cursor>, limit: int): PageResult
    requires Keyed(store)
  {
    Window(Beyond(Listing(store), after), limit)
  }

  /** Service.List's clamp. */
  function Clamp(limit: int): int {
    if limit <= 0 then DEFAULT_PAGE_SIZE else if limit > MAX_PAGE_SIZE then MAX_PAGE_SIZE else limit
  }

  // ----- what a page is -----

  /** Beyond splits an ascending list exactly at the position. */
  lemma {:induction false} BeyondSplits(s: seq<Todo>, after: Option<Cursor>)
    requires Ascending(TodoLess, s)
    ensures |Beyond(s, after)| <= |s| && Beyond(s, after) == s[|s| - |Beyond(s, after)|..]
    ensures forall i :: 0 <= i < |s| ==> (Past(s[i], after) <==> i >= |s| - |Beyond(s, after)|)
    decreases s
  {
    if s != [] && !Past(s[0], after) {
      BeyondSplits(s[1..], after);
    } else {
      forall i | 0 < i < |s| ensures Past(s[i], after) {
        if after.Some? { BeforeTransitive(after.value, Pos(s[0]), Pos(s[i])); }
      }
    }
  }

  /** After a full page, what is left is the rest of the window. */
  lemma NextPageResumes(s: seq<Todo>, after: Option<Cursor>, limit: int)
    requires Ascending(TodoLess, s) && 1 <= limit < |Beyond(s, after)|
    ensures Beyond(s, Some(Pos(Beyond(s, after)[limit - 1]))) == Beyond(s, after)[limit..]
  {
    BeyondSplits(s, after);
    var k := |s| - |Beyond(s, after)|;
    var last := k + limit - 1;
    var next := Some(Pos(s[last]));
    BeyondSplits(s, next);
    BeforeTotal(Pos(s[last]), Pos(s[last]));
    assert !Past(s[last], next);
    assert Past(s[last + 1], next) by { assert TodoLess(s[last], s[last + 1]); }
    hide Beyond, Past, Before, TodoLess;
    assert Beyond(s, next) == s[last + 1..] == Beyond(s, after)[limit..];
  }

  /** The contract of a page, without reference to how it is computed. */
  ghost predicate IsPage(r: PageResult, all: set<Todo>, after: Option<Cursor>, limit: int) {
    && |r.todos| <= limit
    && Ascending(TodoLess, r.todos)
    && (forall t :: t in r.todos ==> t in all && Past(t, after))
    && match r.next
       case None => forall t :: t in all && Past(t, after) ==> t in r.todos
       case Some(c) =>
         && |r.todos| == limit && r.todos != [] && c == Pos(r.todos[|r.todos| - 1])
         && (forall t :: t in all && Past(t, after) && !Before(c, Pos(t)) ==> t in r.todos)
         && (exists t :: t in all && Before(c, Pos(t)))
  }

  lemma BeyondLists(s: seq<Todo>, all: set<Todo>, after: Option<Cursor>)
    requires Lists(TodoLess, s, all)
    ensures Ascending(TodoLess, Beyond(s, after))
    ensures forall t :: t in Beyond(s, after) <==> t in all && Past(t, after)
  {
    BeyondSplits(s, after);
    var w := Beyond(s, after);
    var k := |s| - |w|;
    hide Past, Beyond, TodoLess;
    assert forall i :: 0 <= i < |w| ==> w[i] == s[k + i];
    forall t | t in all && Past(t, after) ensures t in w {
      assert t in s;
      var i :| 0 <= i < |s| && s[i] == t;
      assert w[i - k] == t;
    }
    forall t | t in w ensures t in all && Past(t, after) {
      var i :| 0 <= i < |w| && w[i] == t;
      assert s[k + i] == t && t in s;
    }
  }

  lemma WindowIsPage(w: seq<Todo>, all: set<Todo>, after: Option<Cursor>, limit: int)
    requires limit >= 1 && Ascending(TodoLess, w) && forall t :: t in w <==> t in all && Past(t, after)
    ensures IsPage(Window(w, limit), all, after, limit)
  {
    hide Past, Before;
    if |w| > limit {
      var c := Pos(w[limit - 1]);
      assert w[limit] in w && TodoLess(w[limit - 1], w[limit]);
      forall t | t in w && !Before(c, Pos(t)) ensures t in w[..limit] {
        var i :| 0 <= i < |w| && w[i] == t;
        assert i >= limit ==> TodoLess(w[limit - 1], w[i]);
        assert w[..limit][i] == t;
      }
    }
  }

  /** A page holds, in order, exactly the todos past the position up to its last one; Next is nil exactly
      when none follows, and a page that is followed is full. */
  lemma PageMeaning(store: Store, after: Option<Cursor>, limit: int)
    requires Keyed(store) && limit >= 1
    ensures IsPage(Page(store, after, limit), store.Values, after, limit)
  {
    var s := Listing(store);
    BeyondLists(s, store.Values, after);
    hide Beyond, Listing, Past, IsPage, Window;
    WindowIsPage(Beyond(s, after), store.Values, after, limit);
  }

  /** Every stored todo comes after the one position exactly when it comes after the other. */
  ghost predicate SamePlace(store: Store, a: Option<Cursor>, b: Option<Cursor>) {
    forall t :: t in store.Values ==> (Past(t, a) <==> Past(t, b))
  }

  lemma BeyondBySize(s: seq<Todo>, a: Option<Cursor>, b: Option<Cursor>)
    requires Ascending(TodoLess, s)
    ensures Beyond(s, a) == Beyond(s, b) <==> forall t :: t in s ==> (Past(t, a) <==> Past(t, b))
  {
    BeyondSplits(s, a);
    BeyondSplits(s, b);
    hide Beyond, Past, TodoLess;
    var i, j := |s| - |Beyond(s, a)|, |s| - |Beyond(s, b)|;
    if i < j { assert s[i] in s; }
    if j < i { assert s[j] in s; }
  }

  lemma WindowHead(w: seq<Todo>, limit: int)
    requires limit >= 1
    ensures Window(w, limit).todos == [] <==> w == []
    ensures w != [] ==> Window(w, limit).todos[0] == w[0]
  {
  }

  lemma WindowStart(s: seq<Todo>, a: Option<Cursor>, b: Option<Cursor>, limit: int)
    requires Ascending(TodoLess, s) && limit >= 1 && |Beyond(s, a)| < |Beyond(s, b)|
    ensures Window(Beyond(s, a), limit) != Window(Beyond(s, b), limit)
  {
    hide Beyond, Past, Before, Window;
    BeyondSplits(s, a);
    BeyondSplits(s, b);
    var w, w' := Beyond(s, a), Beyond(s, b);
    WindowHead(w, limit);
    WindowHead(w', limit);
    if w != [] {
      var i, j := |s| - |w|, |s| - |w'|;
      assert w[0] == s[i] && w'[0] == s[j] && TodoLess(s[j], s[i]);
      BeforeTotal(Pos(s[i]), Pos(s[i]));
    }
  }

  lemma WindowTellsBeyond(s: seq<Todo>, a: Option<Cursor>, b: Option<Cursor>, limit: int)
    requires Ascending(TodoLess, s) && limit >= 1
    ensures Window(Beyond(s, a), limit) == Window(Beyond(s, b), limit) <==> Beyond(s, a) == Beyond(s, b)
  {
    BeyondSplits(s, a);
    BeyondSplits(s, b);
    hide Beyond, Window, Past, Ascending;
    if |Beyond(s, a)| < |Beyond(s, b)| { WindowStart(s, a, b, limit); }
    else if |Beyond(s, b)| < |Beyond(s, a)| { WindowStart(s, b, a, limit); }
    else { assert Beyond(s, a) == Beyond(s, b); }
  }

  /** Two positions give the same page exactly when no stored todo lies between them. */
  lemma SamePageExactly(store: Store, a: Option<Cursor>, b: Option<Cursor>, limit: int)
    requires Keyed(store) && limit >= 1
    ensures Page(store, a, limit) == Page(store, b, limit) <==> SamePlace(store, a, b)
  {
    var s := Listing(store);
    assert SameElements(s, store.Values) && Ascending(TodoLess, s);
    hide Beyond, Listing, Past, Window, Ascending;
    BeyondBySize(s, a, b);
    WindowTellsBeyond(s, a, b, limit);
    assert (forall t :: t in s ==> (Past(t, a) <==> Past(t, b))) <==> SamePlace(store, a, b);
  }

  // ----- the walk -----

  /** All pages of a walk that follows Next until it is nil, asking for limits(i) on the i-th page. */
  ghost function Walk(s: seq<Todo>, after: Option<Cursor>, limits: nat -> int, i: nat): seq<Todo>
    requires Ascending(TodoLess, s)
    decreases |Beyond(s, after)|
  {
    var w := Beyond(s, after);
    var r := Window(w, Clamp(limits(i)));
    if r.next.None? then r.todos
    else
      NextPageResumes(s, after, Clamp(limits(i)));
      r.todos + Walk(s, r.next, limits, i + 1)
  }

  lemma {:induction false} WalkFrom(s: seq<Todo>, after: Option<Cursor>, limits: nat -> int, i: nat)
    requires Ascending(TodoLess, s)
    ensures Walk(s, after, limits, i) == Beyond(s, after)
    decreases |Beyond(s, after)|
  {
    var w, n := Beyond(s, after), Clamp(limits(i));
    var r := Window(w, n);
    if r.next.Some? {
      NextPageResumes(s, after, n);
      WalkFrom(s, r.next, limits, i + 1);
      assert w == w[..n] + w[n..];
    }
  }

  /** Whatever limits are asked for, the pages concatenate to the sorted collection, each todo once. */
  lemma FullWalk(store: Store, limits: nat -> int)
    requires Keyed(store)
    ensures Ascending(TodoLess, Listing(store))
    ensures Walk(Listing(store), None, limits, 0) == Listing(store)
    ensures forall t :: t in Walk(Listing(store), None, limits, 0) <==> t in store.Values
  {
    WalkFrom(Listing(store), None, limits, 0);
  }
}
