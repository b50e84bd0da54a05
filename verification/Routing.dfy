/** The composite getter's routing table (internal/authz/getter.go): slices by their declared
    types, and the principal resolver under the principal's own type, chained ahead of a slice
    that owns the same type. */
module Routing {
  import opened Ordering
  import opened Entities
  import opened Ownership

  datatype Resolver = PrincipalResolver | SliceResolver(backend: int) | PrincipalFirst(fallback: Resolver)

  type Table = map<string, Resolver>

  function SliceRoutes(cs: seq<Contribution>): Table {
    if cs == [] then map[]
    else
      var c := cs[|cs| - 1];
      SliceRoutes(cs[..|cs| - 1]) +
      if c.resolver.SliceFactory? then map t | t in c.types :: SliceResolver(c.resolver.backend) else map[]
  }

  function RoutePrincipal(slices: Table, kind: string): Table {
    slices[kind := if kind in slices then PrincipalFirst(slices[kind]) else PrincipalResolver]
  }

  predicate HasPrincipal(cs: seq<Contribution>) {
    exists c :: c in cs && c.resolver.PrincipalFactory?
  }

  function RouteTable(p: Principal, cs: seq<Contribution>): Table {
    if HasPrincipal(cs) then RoutePrincipal(SliceRoutes(cs), p.uid.kind) else SliceRoutes(cs)
  }

  /** The inner loop: every declared type routes to the slice's resolver. */
  method IndexTypes(before: Table, types: seq<string>, backend: int) returns (byType: Table)
    ensures byType == before + map t | t in types :: SliceResolver(backend)
  {
    byType := before;
    for a := 0 to |types|
      invariant byType == before + map t | t in types[..a] :: SliceResolver(backend)
    {
      assert types[..a + 1] == types[..a] + [types[a]];
      byType := byType[types[a] := SliceResolver(backend)];
    }
    assert types[..|types|] == types;
  }

  /** newGetter's indexing loop. */
  method IndexResolvers(p: Principal, cs: seq<Contribution>) returns (byType: Table)
    ensures byType == RouteTable(p, cs)
  {
    byType := map[];
    var principalResolver := false;
    for i := 0 to |cs|
      invariant byType == SliceRoutes(cs[..i])
      invariant principalResolver <==> HasPrincipal(cs[..i])
    {
      var c := cs[i];
      assert cs[..i + 1] == cs[..i] + [c] && cs[..i + 1][..i] == cs[..i];
      assert forall x :: x in cs[..i + 1] <==> x in cs[..i] || x == c;
      match c.resolver {
        case NoResolver =>
        case PrincipalFactory =>
          assert c in cs[..i + 1];
          principalResolver := true;
        case SliceFactory(backend) =>
          byType := IndexTypes(byType, c.types, backend);
      }
    }
    assert cs[..|cs|] == cs;
    if principalResolver {
      byType := RoutePrincipal(byType, p.uid.kind);
    }
  }

  /** Who answers a lookup of uid. */
  datatype Source = FromPrincipal | FromSlice(backend: int) | Nowhere

  function SourceVia(r: Resolver, p: Principal, uid: Uid): Source {
    match r
    case PrincipalResolver => if uid == p.uid then FromPrincipal else Nowhere
    case SliceResolver(backend) => FromSlice(backend)
    case PrincipalFirst(fallback) => if uid == p.uid then FromPrincipal else SourceVia(fallback, p, uid)
  }

  function SourceOf(table: Table, p: Principal, uid: Uid): Source {
    if uid.kind in table then SourceVia(table[uid.kind], p, uid) else Nowhere
  }

  /** Some contribution names backend b as the resolver of this type. */
  predicate Declares(cs: seq<Contribution>, b: int, kind: string) {
    exists c :: c in cs && c.resolver == SliceFactory(b) && kind in c.types
  }

  lemma {:induction false} SliceRoutesMeaning(cs: seq<Contribution>, kind: string, b: int)
    requires WellOwned(cs)
    ensures kind in SliceRoutes(cs) && SliceRoutes(cs)[kind] == SliceResolver(b) <==> Declares(cs, b, kind)
    ensures kind in SliceRoutes(cs) ==> SliceRoutes(cs)[kind].SliceResolver?
    decreases |cs|
  {
    if cs != [] {
      var n := |cs| - 1;
      var front, c := cs[..n], cs[n];
      WellOwnedPrefix(cs, n);
      SliceRoutesMeaning(front, kind, b);
      assert cs == front + [c];
      assert Declares(cs, b, kind) <==> Declares(front, b, kind) || (c.resolver == SliceFactory(b) && kind in c.types);
      if kind in c.types {
        DeclaredMeaning(front, kind);
        DistinctAppend(Declared(front), c.types);
        assert !Declares(front, b, kind);
      }
    }
  }

  lemma {:induction false} PrincipalAddsNoSlice(cs: seq<Contribution>)
    ensures SliceRoutes([PRINCIPAL_CONTRIBUTION] + cs) == SliceRoutes(cs)
  {
    var all := [PRINCIPAL_CONTRIBUTION] + cs;
    if cs != [] {
      PrincipalAddsNoSlice(cs[..|cs| - 1]);
      assert all[..|all| - 1] == [PRINCIPAL_CONTRIBUTION] + cs[..|cs| - 1];
    } else {
      assert all[..0] == [];
    }
  }

  /** The principal's own uid is answered from its claims, any other uid by the one slice that
      declares its type, and everything else by nobody; whatever type the principal has. */
  lemma RoutingMeaning(cs: seq<Contribution>, p: Principal, uid: Uid)
    requires WellOwned(cs)
    ensures var src := SourceOf(RouteTable(p, [PRINCIPAL_CONTRIBUTION] + cs), p, uid);
      && (src == FromPrincipal <==> uid == p.uid)
      && (uid != p.uid ==> forall b :: src == FromSlice(b) <==> Declares(cs, b, uid.kind))
  {
    var all := [PRINCIPAL_CONTRIBUTION] + cs;
    PrincipalAddsNoSlice(cs);
    assert PRINCIPAL_CONTRIBUTION in all && HasPrincipal(all);
    var slices := SliceRoutes(cs);
    assert RouteTable(p, all) == RoutePrincipal(slices, p.uid.kind);
    forall b
      ensures uid.kind in slices && slices[uid.kind] == SliceResolver(b) <==> Declares(cs, b, uid.kind)
    {
      SliceRoutesMeaning(cs, uid.kind, b);
    }
    SliceRoutesMeaning(cs, uid.kind, 0);
    hide RouteTable, SliceRoutes, Declares;
    if uid.kind in slices {
      var r := slices[uid.kind];
      assert SourceVia(r, p, uid) == FromSlice(r.backend);
    }
  }

  // ----- order does not matter -----

  lemma SumsAgree<T>(whole: multiset<T>, less: multiset<T>, front: multiset<T>, front': multiset<T>,
      last: multiset<T>, gone: multiset<T>)
    requires whole == front + last && less == front' + last && front == front' + gone
    ensures whole == less + gone
  {
  }

  lemma DeclaredLast(cs: seq<Contribution>, c: Contribution)
    ensures multiset(Declared(cs + [c])) == multiset(Declared(cs)) + multiset(c.types)
  {
    assert (cs + [c])[..|cs|] == cs;
  }

  lemma {:induction false} DeclaredRemove(cs: seq<Contribution>, i: nat)
    requires i < |cs|
    ensures multiset(Declared(cs)) == multiset(Declared(cs[..i] + cs[i + 1..])) + multiset(cs[i].types)
    decreases |cs|
  {
    hide Declared;
    var n := |cs| - 1;
    var front, c := cs[..n], cs[n];
    DeclaredLast(front, c);
    assert cs == front + [c];
    if i < n {
      DeclaredRemove(front, i);
      var front' := front[..i] + front[i + 1..];
      DeclaredLast(front', c);
      assert cs[..i] + cs[i + 1..] == front' + [c];
      SumsAgree(multiset(Declared(cs)), multiset(Declared(front' + [c])), multiset(Declared(front)),
                multiset(Declared(front')), multiset(c.types), multiset(cs[i].types));
    } else {
      assert cs[..i] + cs[i + 1..] == front;
    }
  }

  lemma RemoveSame<T>(s: seq<T>, t: seq<T>, i: nat)
    requires s != [] && multiset(s) == multiset(t) && i < |t| && t[i] == s[|s| - 1]
    ensures multiset(s[..|s| - 1]) == multiset(t[..i] + t[i + 1..])
  {
    assert s == s[..|s| - 1] + [s[|s| - 1]];
    assert t == (t[..i] + [t[i]]) + t[i + 1..];
    var x := t[i];
    assert multiset(t) == multiset(t[..i]) + multiset{x} + multiset(t[i + 1..]);
    assert multiset(s) == multiset(s[..|s| - 1]) + multiset{x};
    assert multiset(s[..|s| - 1]) == multiset(s) - multiset{x};
    assert multiset(t[..i] + t[i + 1..]) == multiset(t) - multiset{x};
  }

  lemma {:induction false} DeclaredPermutes(cs: seq<Contribution>, ds: seq<Contribution>)
    requires multiset(cs) == multiset(ds)
    ensures multiset(Declared(cs)) == multiset(Declared(ds))
    decreases |cs|
  {
    assert |cs| == |multiset(cs)| == |multiset(ds)| == |ds|;
    if cs != [] {
      var n := |cs| - 1;
      assert cs[n] in multiset(cs);
      var i :| 0 <= i < |ds| && ds[i] == cs[n];
      DeclaredRemove(ds, i);
      RemoveSame(cs, ds, i);
      DeclaredPermutes(cs[..n], ds[..i] + ds[i + 1..]);
    }
  }

  lemma {:induction false} DistinctByCount<T>(s: seq<T>)
    ensures Distinct(s) <==> forall x :: multiset(s)[x] <= 1
  {
    if s != [] {
      var n := |s| - 1;
      DistinctByCount(s[..n]);
      assert s == s[..n] + [s[n]];
      assert forall x :: multiset(s)[x] == multiset(s[..n])[x] + (if x == s[n] then 1 else 0);
      assert s[n] in s[..n] <==> multiset(s[..n])[s[n]] > 0;
      if s[n] in s[..n] {
        Repeats(s[..n], s[n]);
        assert multiset(s)[s[n]] > 1;
      } else if Distinct(s[..n]) {
        assert Distinct(s);
      } else {
        var x :| multiset(s[..n])[x] > 1;
        assert multiset(s)[x] > 1;
      }
    }
  }

  lemma WellOwnedPermutes(cs: seq<Contribution>, ds: seq<Contribution>)
    requires multiset(cs) == multiset(ds) && WellOwned(cs)
    ensures WellOwned(ds)
  {
    DeclaredPermutes(cs, ds);
    DistinctByCount(Declared(cs));
    DistinctByCount(Declared(ds));
    assert forall c :: c in ds ==> c in multiset(ds);
    assert forall t :: t in Declared(ds) ==> t in multiset(Declared(ds));
  }

  /** Reordering the contributions changes no answer. */
  lemma RoutingPermutes(cs: seq<Contribution>, ds: seq<Contribution>, p: Principal, uid: Uid)
    requires multiset(cs) == multiset(ds) && WellOwned(cs)
    ensures WellOwned(ds)
    ensures SourceOf(RouteTable(p, [PRINCIPAL_CONTRIBUTION] + cs), p, uid)
         == SourceOf(RouteTable(p, [PRINCIPAL_CONTRIBUTION] + ds), p, uid)
  {
    WellOwnedPermutes(cs, ds);
    RoutingMeaning(cs, p, uid);
    RoutingMeaning(ds, p, uid);
    assert forall c :: c in cs <==> c in multiset(cs);
    assert forall c :: c in ds <==> c in multiset(ds);
    assert forall b :: Declares(cs, b, uid.kind) <==> Declares(ds, b, uid.kind);
    hide RouteTable, SourceOf;
    var s := SourceOf(RouteTable(p, [PRINCIPAL_CONTRIBUTION] + cs), p, uid);
    var t := SourceOf(RouteTable(p, [PRINCIPAL_CONTRIBUTION] + ds), p, uid);
    if s.FromSlice? { assert t == FromSlice(s.backend); }
    if t.FromSlice? { assert s == FromSlice(t.backend); }
  }
}
