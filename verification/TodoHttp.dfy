/** The list operation of internal/todo/httpapi/handler.go: decode the token, page, encode the next
    token; and the walk of a client that follows tokens until none is sent. */
module TodoHttp {
  import opened Wrappers
  import opened Ordering
  import opened Uuids
  import opened Timestamps
  import opened Todos
  import opened Paging
  import opened CursorCodec
  import opened TodoService
  import PG = PostgresRepository

  /** A page with its next token ("" is omitted from the body), or a problem status. */
  datatype ListResponse = Listed(todos: seq<Todo>, nextCursor: string) | Failed(status: int)

  const UNPROCESSABLE := 422
  const INTERNAL := 500

  lemma CanonicalIsPlain(u: Uuid)
    ensures AllPlain(ToText(u))
  {
    forall k: nat | k < TEXT_LENGTH ensures IsPlain(ToText(u)[k]) {
      assert ToText(u)[k] == CharAt(u, k);
    }
  }

  /** Every position a stored row can be at has a plain id. */
  lemma PageIsPlain(rows: PG.Table, after: Option<Cursor>, limit: int)
    requires PG.Sound(rows) && limit >= 1
    ensures Keyed(PG.AsStore(rows))
    ensures var r := Page(PG.AsStore(rows), after, limit); r.next.Some? ==> AllPlain(r.next.value.id)
  {
    PG.AsStoreMeaning(rows);
    var store := PG.AsStore(rows);
    PageMeaning(store, after, limit);
    var r := Page(store, after, limit);
    hide Page, PG.AsStore;
    if r.next.Some? {
      var last := r.todos[|r.todos| - 1];
      assert last in r.todos && last in store.Values;
      var u :| u in rows && last == PG.RowTodo(rows[u]);
      CanonicalIsPlain(rows[u].id);
    }
  }

  /** The token's position, when it decodes to one the adapter accepts. */
  function Position(token: string): Option<Option<(int, Uuid)>> {
    match DecodeCursor(token)
    case Err(_) => None
    case Ok(after) =>
      if after.Some? && Parse(after.value.id).None? then None else Some(PG.Bound(after))
  }

  /** A token that does not decode to a position is a 422, an outage a 500; otherwise the response is
      the page after the position, with the token of the page's last todo. */
  method List(service: Service, token: string, limit: int, zone: Zone, reachable: bool) returns (r: ListResponse)
    requires service.repo.Valid()
    ensures Keyed(service.repo.Todos())
    ensures Position(token).None? ==> r == Failed(422)
    ensures Position(token).Some? && !reachable ==> r == Failed(500)
    ensures Position(token).Some? && reachable ==>
      var page := Page(service.repo.Todos(), PG.CursorOf(Position(token).value), Clamp(limit));
      && (page.next.Some? ==> AllPlain(page.next.value.id))
      && r == Listed(page.todos, EncodeCursor(page.next, zone))
  {
    hide DecodeCursor, Parse, EncodeCursor, Page, PG.AsStore, PG.CursorOf, PG.Bound, AllPlain;
    PG.AsStoreMeaning(service.repo.rows);
    var after := DecodeCursor(token);
    if after.Err? {
      return Failed(UNPROCESSABLE);
    }
    var result := service.List(after.value, limit, reachable);
    if result.Err? {
      return Failed(if result.error == InvalidCursor then UNPROCESSABLE else INTERNAL);
    }
    PageIsPlain(service.repo.rows, PG.CursorOf(PG.Bound(after.value)), Clamp(limit));
    return Listed(result.value.todos, EncodeCursor(result.value.next, zone));
  }

  // ----- following tokens -----

  /** The position a page's token comes back as, if it comes back. */
  function Carried(t: Todo, zone: Zone): Option<Cursor> {
    var at := t.createdAt + Drift(zone(t.createdAt));
    if Marshals(t.createdAt, zone(t.createdAt)) && at != ZERO_TIME && t.id != "" then Some(Cursor(at, t.id)) else None
  }

  ghost predicate PlainIds(s: seq<Todo>) {
    forall i :: 0 <= i < |s| ==> AllPlain(s[i].id)
  }

  lemma NextIsPlain(s: seq<Todo>, after: Option<Cursor>, limit: int)
    requires Ascending(TodoLess, s) && PlainIds(s) && limit >= 1
    ensures var r := Window(Beyond(s, after), limit);
      r.next.Some? ==>
        && limit < |Beyond(s, after)| && r.next.value == Pos(Beyond(s, after)[limit - 1])
        && AllPlain(r.next.value.id)
  {
    BeyondSplits(s, after);
    hide Beyond, AllPlain;
  }

  lemma CarriedMeaning(t: Todo, zone: Zone)
    requires AllPlain(t.id)
    ensures var token := EncodeCursor(Some(Pos(t)), zone);
      && (Carried(t, zone).None? <==> token == "" || DecodeCursor(token).Err?)
      && (Carried(t, zone).Some? ==> DecodeCursor(token) == Ok(Carried(t, zone)))
  {
    hide EncodeCursor, DecodeCursor, Marshals, Drift;
    CursorRoundTrip(Pos(t), zone);
  }

  /** Everything a client has seen once it stops, following nextCursor until it is absent or refused; none
      if it is still following after that many pages. */
  ghost function TokenWalk(s: seq<Todo>, after: Option<Cursor>, limits: nat -> int, i: nat, pages: nat, zone: Zone): Option<seq<Todo>>
    requires Ascending(TodoLess, s) && PlainIds(s)
    decreases pages
  {
    if pages == 0 then None
    else
      var n := Clamp(limits(i));
      var r := Window(Beyond(s, after), n);
      if r.next.None? then Some(r.todos)
      else
        NextIsPlain(s, after, n);
        var token := EncodeCursor(r.next, zone);
        if token == "" || DecodeCursor(token).Err? then Some(r.todos)
        else
          match TokenWalk(s, DecodeCursor(token).value, limits, i + 1, pages - 1, zone)
          case None => None
          case Some(rest) => Some(r.todos + rest)
  }

  lemma TokenWalkStep(s: seq<Todo>, after: Option<Cursor>, limits: nat -> int, i: nat, pages: nat, zone: Zone)
    requires Ascending(TodoLess, s) && PlainIds(s) && pages > 0
    ensures var w, n := Beyond(s, after), Clamp(limits(i));
      TokenWalk(s, after, limits, i, pages, zone) ==
        if |w| <= n then Some(w)
        else match Carried(w[n - 1], zone)
          case None => Some(w[..n])
          case Some(c) =>
            match TokenWalk(s, Some(c), limits, i + 1, pages - 1, zone)
            case None => None
            case Some(rest) => Some(w[..n] + rest)
  {
    hide EncodeCursor, DecodeCursor, Carried, AllPlain, Beyond;
    var w, n := Beyond(s, after), Clamp(limits(i));
    if |w| > n {
      NextIsPlain(s, after, n);
      CarriedMeaning(w[n - 1], zone);
    }
  }

  /** The k-th todo's token comes back as a position with the same todos before and after it. */
  ghost predicate Resumes(s: seq<Todo>, k: nat, zone: Zone)
    requires k < |s|
  {
    && Carried(s[k], zone).Some?
    && forall j :: 0 <= j < |s| ==> (Before(Carried(s[k], zone).value, Pos(s[j])) <==> k < j)
  }

  lemma ResumesMeaning(s: seq<Todo>, k: nat, zone: Zone)
    requires Ascending(TodoLess, s) && k < |s|
    ensures Resumes(s, k, zone) <==> Carried(s[k], zone).Some? && Beyond(s, Carried(s[k], zone)) == s[k + 1..]
  {
    var after := Carried(s[k], zone);
    if after.Some? {
      BeyondSplits(s, after);
      hide Beyond, Carried, Before, Ascending;
      var first := |s| - |Beyond(s, after)|;
      assert forall j :: 0 <= j < |s| ==> (Before(after.value, Pos(s[j])) <==> first <= j);
      if Resumes(s, k, zone) {
        assert first == k + 1;
      }
    }
  }

  /** Every token a page can end with but the last resumes where it should. */
  ghost predicate AllResume(s: seq<Todo>, zone: Zone) {
    forall k :: 0 <= k < |s| - 1 ==> Resumes(s, k, zone)
  }

  lemma {:induction false} ResumingWalk(s: seq<Todo>, after: Option<Cursor>, limits: nat -> int, i: nat, pages: nat, zone: Zone)
    requires Ascending(TodoLess, s) && PlainIds(s) && AllResume(s, zone) && pages > |Beyond(s, after)|
    ensures TokenWalk(s, after, limits, i, pages, zone) == Some(Beyond(s, after))
    decreases pages
  {
    hide TokenWalk, Resumes, Carried, PlainIds, TodoLess, Beyond, Ascending;
    TokenWalkStep(s, after, limits, i, pages, zone);
    var w, n := Beyond(s, after), Clamp(limits(i));
    if |w| > n {
      BeyondSplits(s, after);
      var k := |s| - |w| + n - 1;
      assert w[n - 1] == s[k] && s[k + 1..] == w[n..];
      ResumesMeaning(s, k, zone);
      ResumingWalk(s, Carried(s[k], zone), limits, i + 1, pages - 1, zone);
      assert w == w[..n] + w[n..];
    }
  }

  lemma NoPagesNoWalk(s: seq<Todo>, after: Option<Cursor>, limits: nat -> int, i: nat, pages: nat, zone: Zone)
    requires Ascending(TodoLess, s) && PlainIds(s)
    ensures TokenWalk(s, after, limits, i, pages, zone).Some? ==> pages > 0
  {
    hide EncodeCursor, DecodeCursor, Beyond, Window, PlainIds, Ascending;
  }

  /** A walk is either over or starts with the first todo it has not passed. */
  lemma TokenWalkHead(s: seq<Todo>, after: Option<Cursor>, limits: nat -> int, i: nat, pages: nat, zone: Zone)
    requires Ascending(TodoLess, s) && PlainIds(s)
    ensures var walk, w := TokenWalk(s, after, limits, i, pages, zone), Beyond(s, after);
      walk.Some? ==> (w == [] ==> walk.value == []) && (w != [] ==> walk.value != [] && walk.value[0] == w[0])
  {
    hide TokenWalk, Carried, PlainIds, TodoLess, Beyond, Ascending;
    NoPagesNoWalk(s, after, limits, i, pages, zone);
    if pages > 0 { TokenWalkStep(s, after, limits, i, pages, zone); }
  }

  lemma HeadDecides(s: seq<Todo>, w: seq<Todo>, k: nat)
    requires Ascending(TodoLess, s) && k < |s| && |w| <= |s| && w == s[|s| - |w|..] && w != [] && w[0] == s[k]
    ensures w == s[k..]
  {
    var j := |s| - |w|;
    BeforeTotal(Pos(s[k]), Pos(s[k]));
    hide Before;
    assert s[j] == s[k] && !TodoLess(s[k], s[k]);
  }

  /** Page by page, a walk that returns the rest of the list has resumed at every todo. */
  lemma {:induction false} OneByOne(s: seq<Todo>, after: Option<Cursor>, limits: nat -> int, i: nat, pages: nat, zone: Zone, k: nat)
    requires (forall j :: limits(j) == 1) && Ascending(TodoLess, s) && PlainIds(s) && k <= |s|
    requires Beyond(s, after) == s[k..] && TokenWalk(s, after, limits, i, pages, zone) == Some(s[k..])
    ensures forall j :: k <= j < |s| - 1 ==> Resumes(s, j, zone)
    decreases pages
  {
    hide TokenWalk, Resumes, Carried, PlainIds, TodoLess, Beyond, Ascending;
    if k < |s| - 1 {
      StepsByOne(s, after, limits, i, pages, zone, k);
      OneByOne(s, Carried(s[k], zone), limits, i + 1, pages - 1, zone, k + 1);
    }
  }

  lemma StepsByOne(s: seq<Todo>, after: Option<Cursor>, limits: nat -> int, i: nat, pages: nat, zone: Zone, k: nat)
    requires limits(i) == 1 && Ascending(TodoLess, s) && PlainIds(s) && k < |s| - 1
    requires Beyond(s, after) == s[k..]
    ensures TokenWalk(s, after, limits, i, pages, zone) == Some(s[k..]) ==>
      && pages > 0 && Resumes(s, k, zone) && Beyond(s, Carried(s[k], zone)) == s[k + 1..]
      && TokenWalk(s, Carried(s[k], zone), limits, i + 1, pages - 1, zone) == Some(s[k + 1..])
  {
    hide TokenWalk, Resumes, Carried, PlainIds, TodoLess, Beyond, Ascending;
    if TokenWalk(s, after, limits, i, pages, zone) != Some(s[k..]) { return; }
    NoPagesNoWalk(s, after, limits, i, pages, zone);
    TokenWalkStep(s, after, limits, i, pages, zone);
    var w, next := s[k..], Carried(s[k], zone);
    assert |w| > 1 && w[0] == s[k] && w[..1] == [s[k]] && w == [s[k]] + s[k + 1..];
    assert next.Some?;
    var rest := TokenWalk(s, next, limits, i + 1, pages - 1, zone);
    assert rest.Some? && w == [s[k]] + rest.value;
    assert rest.value == w[1..] == s[k + 1..];
    TokenWalkHead(s, next, limits, i + 1, pages - 1, zone);
    assert rest.value[0] == s[k + 1];
    BeyondSplits(s, next);
    HeadDecides(s, Beyond(s, next), k + 1);
    ResumesMeaning(s, k, zone);
  }

  lemma ListingIsPlain(store: Store)
    requires Keyed(store) && forall id :: id in store ==> AllPlain(id)
    ensures PlainIds(Listing(store)) && Ascending(TodoLess, Listing(store))
  {
    var s := Listing(store);
    forall i | 0 <= i < |s| ensures AllPlain(s[i].id) {
      assert s[i] in s && s[i] in store.Values;
    }
  }

  /** Whatever limits are asked for, following tokens stops, and has then returned the whole list. */
  ghost predicate WalksWhole(s: seq<Todo>, zone: Zone)
    requires Ascending(TodoLess, s) && PlainIds(s)
  {
    forall limits: nat -> int :: Returns(s, limits, zone)
  }

  ghost predicate Returns(s: seq<Todo>, limits: nat -> int, zone: Zone)
    requires Ascending(TodoLess, s) && PlainIds(s)
  {
    exists pages :: TokenWalk(s, None, limits, 0, pages, zone) == Some(s)
  }

  lemma ResumingWalksWhole(s: seq<Todo>, zone: Zone)
    requires Ascending(TodoLess, s) && PlainIds(s)
    ensures WalksWhole(s, zone) <==> AllResume(s, zone)
  {
    assert Beyond(s, None) == s && s[0..] == s;
    hide Resumes, Beyond, TodoLess, Ascending, PlainIds, TokenWalk;
    if AllResume(s, zone) {
      forall limits: nat -> int ensures Returns(s, limits, zone) {
        ResumingWalk(s, None, limits, 0, |s| + 1, zone);
      }
    }
    if WalksWhole(s, zone) {
      var ones: nat -> int := _ => 1;
      assert Returns(s, ones, zone);
      var pages :| TokenWalk(s, None, ones, 0, pages, zone) == Some(s);
      OneByOne(s, None, ones, 0, pages, zone, 0);
    }
  }

  /** Following tokens stops with the whole sorted collection, for all limits and in any zone, exactly when
      every todo but the last has a token that comes back as a position with the same todos after it. */
  lemma TokenWalkExactly(store: Store, zone: Zone)
    requires Keyed(store) && forall id :: id in store ==> AllPlain(id)
    ensures PlainIds(Listing(store)) && Ascending(TodoLess, Listing(store))
    ensures WalksWhole(Listing(store), zone) <==> AllResume(Listing(store), zone)
  {
    hide Listing, WalksWhole, AllResume;
    ListingIsPlain(store);
    ResumingWalksWhole(Listing(store), zone);
  }

  /** In a zone of whole minutes a token that comes back always resumes. */
  lemma WholeMinutesResume(s: seq<Todo>, k: nat, zone: Zone)
    requires Ascending(TodoLess, s) && k < |s| && zone(s[k].createdAt) % 60 == 0
    ensures Resumes(s, k, zone) <==> Carried(s[k], zone).Some?
  {
    hide Marshals, Before;
    DriftMeaning(zone(s[k].createdAt));
    if Carried(s[k], zone).Some? {
      assert Carried(s[k], zone).value == Pos(s[k]);
      forall j | 0 <= j < |s| ensures Before(Pos(s[k]), Pos(s[j])) <==> k < j {
        BeforeTotal(Pos(s[k]), Pos(s[k]));
        if k < j { assert TodoLess(s[k], s[j]); }
        if j < k {
          assert TodoLess(s[j], s[k]);
          if Before(Pos(s[k]), Pos(s[j])) { BeforeTransitive(Pos(s[k]), Pos(s[j]), Pos(s[k])); }
        }
      }
    }
  }

  lemma AllBeyond(s: seq<Todo>, after: Option<Cursor>)
    requires s != [] && after.Some? && Before(after.value, Pos(s[0]))
    ensures Beyond(s, after) == s
  {
  }

  /** A first token that comes back as an earlier position: page by page, the client never gets past it. */
  lemma {:induction false} EarlierTokenNeverStops(s: seq<Todo>, after: Option<Cursor>, limits: nat -> int, i: nat, pages: nat, zone: Zone)
    requires (forall j :: limits(j) == 1) && Ascending(TodoLess, s) && PlainIds(s) && |s| >= 2 && Beyond(s, after) == s
    requires Carried(s[0], zone).Some? && Before(Carried(s[0], zone).value, Pos(s[0]))
    ensures TokenWalk(s, after, limits, i, pages, zone) == None
    decreases pages
  {
    hide Carried, PlainIds, TodoLess, Beyond, Ascending, Before, EncodeCursor, DecodeCursor, Window;
    if pages > 0 {
      hide TokenWalk;
      TokenWalkStep(s, after, limits, i, pages, zone);
      var next := Carried(s[0], zone);
      AllBeyond(s, next);
      EarlierTokenNeverStops(s, next, limits, i + 1, pages - 1, zone);
    }
  }

  /** The rows' listing, as a token walk needs it. */
  lemma RowsArePlain(rows: PG.Table)
    requires PG.Sound(rows)
    ensures Keyed(PG.AsStore(rows))
    ensures PlainIds(Listing(PG.AsStore(rows))) && Ascending(TodoLess, Listing(PG.AsStore(rows)))
  {
    PG.AsStoreMeaning(rows);
    var store := PG.AsStore(rows);
    forall id | id in store ensures AllPlain(id) {
      PG.IdsParse(rows, id);
      CanonicalIsPlain(Parse(id).value);
    }
    hide PG.AsStore, AllPlain;
    ListingIsPlain(store);
  }

  /** What a token of a stored todo brings back is again a position the adapter can hold. */
  lemma CarriedStorable(after: Option<Cursor>, zone: Zone)
    requires Storable(after) && after.Some? && AllPlain(after.value.id)
    ensures var r := DecodeCursor(EncodeCursor(after, zone)); r.Ok? ==> Storable(r.value)
  {
    hide EncodeCursor, DecodeCursor, Marshals, Drift, Canonical;
    CursorRoundTrip(after.value, zone);
    DriftMeaning(zone(after.value.createdAt));
  }

  /** One page of the walk, by the handler. */
  lemma HandledPage(rows: PG.Table, after: Option<Cursor>, limit: int, zone: Zone)
    requires PG.Sound(rows) && Storable(after)
    ensures Keyed(PG.AsStore(rows))
    ensures var next := Page(PG.AsStore(rows), after, Clamp(limit)).next;
      && (next.Some? ==> AllPlain(next.value.id))
      && (next.Some? && DecodeCursor(EncodeCursor(next, zone)).Ok? ==>
            Storable(DecodeCursor(EncodeCursor(next, zone)).value))
  {
    hide EncodeCursor, DecodeCursor, Page, PG.AsStore, PG.Sound, AllPlain, Storable;
    PageIsPlain(rows, after, Clamp(limit));
    NextIsStorable(rows, after, Clamp(limit));
    var next := Page(PG.AsStore(rows), after, Clamp(limit)).next;
    if next.Some? { CarriedStorable(next, zone); }
  }

  lemma PositionOf(token: string, after: Option<Cursor>)
    requires DecodeCursor(token) == Ok(after) && Storable(after)
    ensures Position(token).Some? && PG.CursorOf(Position(token).value) == after
  {
    hide DecodeCursor, PG.Bound, PG.CursorOf, Parse;
    StorableBound(after);
  }

  lemma NoPosition(token: string)
    requires DecodeCursor(token).Err?
    ensures Position(token).None?
  {
    hide DecodeCursor;
  }

  /** The response is the page after this position. */
  ghost predicate ShowsPage(r: ListResponse, store: Store, after: Option<Cursor>, limit: int, zone: Zone)
    requires Keyed(store)
  {
    var page := Page(store, after, Clamp(limit));
    && (page.next.Some? ==> AllPlain(page.next.value.id))
    && r == Listed(page.todos, EncodeCursor(page.next, zone))
  }

  lemma PrependTwice(a: seq<Todo>, b: seq<Todo>, rest: Option<seq<Todo>>)
    ensures Prepend(a, Prepend(b, rest)) == Prepend(a + b, rest)
    ensures Prepend([], rest) == rest
    ensures Prepend(a, Some(b)) == Some(a + b) && Prepend(a, None) == None
  {
    if rest.Some? {
      assert a + (b + rest.value) == a + b + rest.value;
      assert [] + rest.value == rest.value;
    }
  }

  lemma NoneStorable()
    ensures Storable(None)
  {
  }

  function Prepend(all: seq<Todo>, rest: Option<seq<Todo>>): Option<seq<Todo>> {
    if rest.None? then None else Some(all + rest.value)
  }

  lemma WalkOnce(s: seq<Todo>, after: Option<Cursor>, limits: nat -> int, i: nat, pages: nat, zone: Zone)
    requires Ascending(TodoLess, s) && PlainIds(s)
    ensures pages == 0 ==> TokenWalk(s, after, limits, i, pages, zone) == None
    ensures pages > 0 ==>
      var r := Window(Beyond(s, after), Clamp(limits(i)));
      && (r.next.Some? ==> AllPlain(r.next.value.id))
      && var token := EncodeCursor(r.next, zone);
         TokenWalk(s, after, limits, i, pages, zone) ==
           if token == "" || DecodeCursor(token).Err? then Some(r.todos)
           else Prepend(r.todos, TokenWalk(s, DecodeCursor(token).value, limits, i + 1, pages - 1, zone))
  {
    if pages > 0 { NextIsPlain(s, after, Clamp(limits(i))); }
    hide DecodeCursor, Beyond, Window, PlainIds, Ascending, AllPlain;
  }

  /** Where the walk goes from a response: it is over, or it goes on from what the token brings back. */
  lemma WalkOn(rows: PG.Table, r: ListResponse, after: Option<Cursor>, limits: nat -> int, i: nat, pages: nat, zone: Zone)
    requires PG.Sound(rows) && Storable(after) && pages > 0
    requires Keyed(PG.AsStore(rows)) && PlainIds(Listing(PG.AsStore(rows))) && Ascending(TodoLess, Listing(PG.AsStore(rows)))
    requires ShowsPage(r, PG.AsStore(rows), after, limits(i), zone)
    ensures r.Listed?
    ensures var walk := TokenWalk(Listing(PG.AsStore(rows)), after, limits, i, pages, zone);
      if r.nextCursor == "" || DecodeCursor(r.nextCursor).Err? then
        walk == Some(r.todos) && (r.nextCursor != "" ==> Position(r.nextCursor).None?)
      else
        var next := DecodeCursor(r.nextCursor).value;
        && Storable(next) && Position(r.nextCursor).Some? && PG.CursorOf(Position(r.nextCursor).value) == next
        && walk == Prepend(r.todos, TokenWalk(Listing(PG.AsStore(rows)), next, limits, i + 1, pages - 1, zone))
  {
    assert EncodeCursor(None, zone) == "";
    hide DecodeCursor, EncodeCursor, Position, Listing, Beyond, Window, PG.AsStore, PG.Sound, PG.CursorOf, Storable,
      PlainIds, AllPlain, Ascending, TokenWalk, Clamp;
    HandledPage(rows, after, limits(i), zone);
    WalkOnce(Listing(PG.AsStore(rows)), after, limits, i, pages, zone);
    if r.nextCursor != "" {
      var again := DecodeCursor(r.nextCursor);
      if again.Ok? { PositionOf(r.nextCursor, again.value); } else { NoPosition(r.nextCursor); }
    }
  }

  /** A client that follows nextCursor through the handler, for at most so many pages, sees exactly the
      token walk of the stored todos. */
  method FollowTokens(service: Service, limits: nat -> int, pages: nat, zone: Zone) returns (seen: Option<seq<Todo>>)
    requires service.repo.Valid()
    ensures Keyed(service.repo.Todos())
    ensures var s := Listing(service.repo.Todos());
      && Ascending(TodoLess, s) && PlainIds(s)
      && seen == TokenWalk(s, None, limits, 0, pages, zone)
  {
    hide DecodeCursor, EncodeCursor, Position, Listing, Beyond, Window, PG.AsStore, PG.Sound, PG.CursorOf, Storable,
      PlainIds, AllPlain, Ascending, TokenWalk, Clamp, Prepend;
    RowsArePlain(service.repo.rows);
    ghost var rows := service.repo.rows;
    ghost var s := Listing(PG.AsStore(rows));
    ghost var whole := TokenWalk(s, None, limits, 0, pages, zone);
    var all: seq<Todo> := [];
    ghost var after: Option<Cursor> := None;
    NoneStorable();
    PositionOf("", None);
    PrependTwice([], [], whole);
    var r := FollowOne(service, "", limits(0), zone);
    for i := 0 to pages
      invariant Storable(after) && ShowsPage(r, PG.AsStore(rows), after, limits(i), zone)
      invariant whole == Prepend(all, TokenWalk(s, after, limits, i, pages - i, zone))
    {
      WalkOn(rows, r, after, limits, i, pages - i, zone);
      hide ShowsPage;
      ghost var next := DecodeCursor(r.nextCursor);
      PrependTwice(all, r.todos, if next.Ok? then TokenWalk(s, next.value, limits, i + 1, pages - i - 1, zone) else None);
      all := all + r.todos;
      if r.nextCursor == "" {
        return Some(all);
      }
      r := FollowOne(service, r.nextCursor, limits(i + 1), zone);
      if r.Failed? {
        return Some(all);
      }
      after := next.value;
    }
    WalkOnce(s, after, limits, pages, 0, zone);
    PrependTwice(all, [], None);
    return None;
  }

  /** One more request, with a token. */
  method FollowOne(service: Service, token: string, limit: int, zone: Zone) returns (r: ListResponse)
    requires service.repo.Valid()
    ensures Keyed(service.repo.Todos())
    ensures r.Failed? <==> Position(token).None?
    ensures Position(token).Some? ==>
      ShowsPage(r, service.repo.Todos(), PG.CursorOf(Position(token).value), limit, zone)
  {
    hide Position, EncodeCursor, Page, PG.AsStore, PG.CursorOf, AllPlain, Clamp;
    r := List(service, token, limit, zone, true);
  }

  lemma MidnightYear(day: nat)
    ensures DaysBeforeYear(0) <= day && ToCivil(day * NS_PER_DAY).year == YearFrom(day, 0)
  {
    assert day * NS_PER_DAY / NS_PER_DAY == day;
    assert DaysBeforeYear(0) == 0;
    hide DaysBeforeYear, YearFrom, MonthFrom, DaysBeforeMonth;
  }

  lemma LateYears(y: nat)
    requires y > 9999
    ensures !InYears(DaysBeforeYear(y) * NS_PER_DAY, 0)
  {
    var day := DaysBeforeYear(y);
    assert DaysBeforeYear(0) == 0;
    YearFromMeaning(day, 0);
    var r := YearFrom(day, 0);
    DaysBeforeMonotone(if r < y then r + 1 else y, y);
    assert r >= y;
    hide DaysBeforeYear, YearFrom, ToCivil;
    MidnightYear(day);
    assert day * NS_PER_DAY + 0 * NS_PER_SECOND == day * NS_PER_DAY;
  }

  /** A year past 9999 does not marshal: its cursor is the empty token, which reads as the first page. */
  lemma LateYearsHaveNoToken(y: nat, id: string)
    requires y > 9999 && AllPlain(id)
    ensures DecodeCursor(EncodeCursor(Some(Cursor(DaysBeforeYear(y) * NS_PER_DAY, id)), _ => 0)) == Ok(None)
  {
    hide DaysBeforeYear, InYears, EncodeCursor, DecodeCursor;
    LateYears(y);
    CursorRoundTrip(Cursor(DaysBeforeYear(y) * NS_PER_DAY, id), _ => 0);
  }
}
