/** Which slice answers for which entity type: the construction-time guard of
    internal/authz/authz.go and the routing table of internal/authz/getter.go. */
module Ownership {
  import opened Wrappers
  import opened Ordering
  import opened Entities

  /** How a contribution builds its resolver.  A slice is named by its backend; only the base
      package can name the principal factory. */
  datatype Factory = NoResolver | PrincipalFactory | SliceFactory(backend: int)

  datatype Contribution = Contribution(types: seq<string>, resolver: Factory)

  const RESERVED: seq<string> := [PRINCIPAL_TYPE, ANONYMOUS_TYPE]

  const PRINCIPAL_CONTRIBUTION := Contribution(RESERVED, PrincipalFactory)

  // ----- validateTypeOwnership -----

  /** All declared types, slice by slice. */
  function Declared(cs: seq<Contribution>): seq<string> {
    if cs == [] then [] else Declared(cs[..|cs| - 1]) + cs[|cs| - 1].types
  }

  /** Every resolver declares a type, no type is reserved, no type occurs twice anywhere. */
  ghost predicate WellOwned(cs: seq<Contribution>) {
    && (forall c :: c in cs && c.resolver != NoResolver ==> c.types != [])
    && (forall t :: t in RESERVED ==> t !in Declared(cs))
    && Distinct(Declared(cs))
  }

  datatype OwnershipError =
    | NoTypes(contribution: nat)
    | ReservedType(contribution: nat, kind: string)
    | ClaimedTwice(first: nat, second: nat, kind: string)

  /** The error names a real fault of the contributions it points to. */
  predicate Blames(cs: seq<Contribution>, e: OwnershipError) {
    match e
    case NoTypes(i) => i < |cs| && cs[i].resolver != NoResolver && cs[i].types == []
    case ReservedType(i, t) => i < |cs| && t in cs[i].types && t in RESERVED
    case ClaimedTwice(i, j, t) =>
      && i <= j < |cs| && t in cs[i].types && t in cs[j].types
      && (i == j ==> !Distinct(cs[i].types))
  }

  lemma {:induction false} DeclaredMeaning(cs: seq<Contribution>, t: string)
    ensures t in Declared(cs) <==> exists i :: 0 <= i < |cs| && t in cs[i].types
  {
    if cs != [] {
      var n := |cs| - 1;
      DeclaredMeaning(cs[..n], t);
      assert forall i :: 0 <= i < n ==> cs[..n][i] == cs[i];
      assert t in Declared(cs) <==> t in Declared(cs[..n]) || t in cs[n].types;
    }
  }

  /** No contribution declares a type twice, and no two declare the same one. */
  ghost predicate OwnedOnce(cs: seq<Contribution>) {
    && (forall i :: 0 <= i < |cs| ==> Distinct(cs[i].types))
    && (forall i, j, t :: 0 <= i < j < |cs| && t in cs[i].types ==> t !in cs[j].types)
  }

  lemma {:induction false} DistinctMeaning(cs: seq<Contribution>)
    ensures Distinct(Declared(cs)) <==> OwnedOnce(cs)
  {
    if cs != [] {
      var n := |cs| - 1;
      var front, c := cs[..n], cs[n];
      DistinctMeaning(front);
      assert cs == front + [c];
      hide OwnedOnce;
      DistinctAppend(Declared(front), c.types);
      OwnedAppend(front, c);
      assert Declared(cs) == Declared(front) + c.types;
    }
  }

  lemma OwnedAppend(front: seq<Contribution>, c: Contribution)
    ensures OwnedOnce(front + [c]) <==>
      OwnedOnce(front) && Distinct(c.types) && forall t :: t in Declared(front) ==> t !in c.types
  {
    var cs, n := front + [c], |front|;
    assert cs[n] == c && forall i :: 0 <= i < n ==> cs[i] == front[i];
    forall t ensures t in Declared(front) <==> exists i :: 0 <= i < n && t in front[i].types {
      DeclaredMeaning(front, t);
    }
    hide Declared, Distinct;
    if OwnedOnce(cs) {
      forall t | t in Declared(front) ensures t !in c.types {
        var i :| 0 <= i < n && t in front[i].types;
        assert t in cs[i].types && i < n;
      }
      forall i | 0 <= i < n ensures Distinct(front[i].types) { assert Distinct(cs[i].types); }
      forall i, j, t | 0 <= i < j < n && t in front[i].types ensures t !in front[j].types {
        assert t in cs[i].types;
      }
      assert Distinct(cs[n].types);
    }
  }

  /** What a well-owned set of contributions is, place by place. */
  lemma WellOwnedMeaning(cs: seq<Contribution>)
    ensures WellOwned(cs) <==>
      && (forall c :: c in cs && c.resolver != NoResolver ==> c.types != [])
      && (forall c :: c in cs ==> "User" !in c.types && "Anonymous" !in c.types)
      && OwnedOnce(cs)
  {
    DistinctMeaning(cs);
    DeclaredMeaning(cs, "User");
    DeclaredMeaning(cs, "Anonymous");
    hide Declared, OwnedOnce;
    assert forall c :: c in cs ==> exists i :: 0 <= i < |cs| && cs[i] == c;
  }

  lemma {:induction false} DeclaredPrefix(cs: seq<Contribution>, n: nat)
    requires n <= |cs|
    ensures Declared(cs[..n]) <= Declared(cs)
  {
    if n < |cs| {
      var front := cs[..|cs| - 1];
      DeclaredPrefix(front, n);
      assert front[..n] == cs[..n];
    } else {
      assert cs[..n] == cs;
    }
  }

  /** What one more contribution must satisfy, given the types already declared. */
  ghost predicate Extends(done: seq<string>, c: Contribution) {
    && (c.resolver != NoResolver ==> c.types != [])
    && (forall t :: t in RESERVED ==> t !in c.types)
    && Distinct(done + c.types)
  }

  lemma WellOwnedStep(cs: seq<Contribution>, n: nat)
    requires n < |cs|
    ensures WellOwned(cs[..n + 1]) <==> WellOwned(cs[..n]) && Extends(Declared(cs[..n]), cs[n])
  {
    var front, c := cs[..n], cs[n];
    assert cs[..n + 1] == front + [c] && (front + [c])[..n] == front;
    var done := Declared(front);
    assert Declared(cs[..n + 1]) == done + c.types;
    assert done <= done + c.types;
    hide Declared;
    assert forall x :: x in front + [c] <==> x in front || x == c;
    assert forall t :: t in done + c.types <==> t in done || t in c.types;
  }

  lemma WellOwnedPrefix(cs: seq<Contribution>, n: nat)
    requires n <= |cs|
    ensures WellOwned(cs) ==> WellOwned(cs[..n])
  {
    DeclaredPrefix(cs, n);
  }

  /** The inner loop: claims one contribution's types for index i. */
  method ClaimTypes(types: seq<string>, i: nat, claimed: map<string, nat>, ghost done: seq<string>)
      returns (r: Result<map<string, nat>, OwnershipError>)
    requires Distinct(done) && forall t :: t in claimed <==> t in done
    ensures r.Ok? <==> Distinct(done + types) && forall t :: t in RESERVED ==> t !in types
    ensures r.Ok? ==> r.value == claimed + map t | t in types :: i
    ensures r.Err? ==> !r.error.NoTypes? && r.error.kind in types
    ensures r.Err? && r.error.ReservedType? ==> r.error.contribution == i && r.error.kind in RESERVED
    ensures r.Err? && r.error.ClaimedTwice? ==> r.error.second == i
    ensures r.Err? && r.error.ClaimedTwice? && r.error.kind in claimed ==> r.error.first == claimed[r.error.kind]
    ensures r.Err? && r.error.ClaimedTwice? && r.error.kind !in claimed ==> r.error.first == i && !Distinct(types)
  {
    var owner := claimed;
    var a := 0;
    while a < |types|
      invariant 0 <= a <= |types|
      invariant Distinct(done + types[..a])
      invariant forall t :: t in RESERVED ==> t !in types[..a]
      invariant forall t :: t in types[..a] ==> t !in claimed
      invariant owner == claimed + map t | t in types[..a] :: i
    {
      var t := types[a];
      ghost var seen := done + types[..a];
      assert types[..a + 1] == types[..a] + [t];
      assert done + types[..a + 1] == seen + [t] && seen + [t] <= done + types;
      if t in RESERVED {
        return Err(ReservedType(i, t));
      }
      if t in owner {
        assert t in seen;
        Repeats(seen, t);
        if t !in claimed {
          assert types[..a] + [t] <= types;
          Repeats(types[..a], t);
        }
        return Err(ClaimedTwice(owner[t], i, t));
      }
      assert t !in seen;
      owner := owner[t := i];
      a := a + 1;
    }
    assert types[..a] == types;
    return Ok(owner);
  }

  /** The contribution at which the error was found. */
  function FoundAt(e: OwnershipError): nat {
    match e
    case NoTypes(i) => i
    case ReservedType(i, _) => i
    case ClaimedTwice(_, j, _) => j
  }

  /** Succeeds exactly on well-owned contributions; an error names a real fault of the first contribution
      that has one. */
  method ValidateTypeOwnership(cs: seq<Contribution>) returns (r: Result<(), OwnershipError>)
    ensures r.Ok? <==> WellOwned(cs)
    ensures r.Ok? <==>
      && (forall c :: c in cs && c.resolver != NoResolver ==> c.types != [])
      && (forall c :: c in cs ==> "User" !in c.types && "Anonymous" !in c.types)
      && OwnedOnce(cs)
    ensures r.Err? ==> Blames(cs, r.error) && WellOwned(cs[..FoundAt(r.error)])
  {
    WellOwnedMeaning(cs);
    hide OwnedOnce;
    var owner: map<string, nat> := map[];
    var i := 0;
    while i < |cs|
      invariant 0 <= i <= |cs|
      invariant WellOwned(cs[..i])
      invariant forall t :: t in owner <==> t in Declared(cs[..i])
      invariant forall t :: t in owner ==> owner[t] < i && t in cs[owner[t]].types
    {
      var c := cs[i];
      WellOwnedStep(cs, i);
      assert cs[..i + 1][..i] == cs[..i];
      if c.resolver != NoResolver && c.types == [] {
        WellOwnedPrefix(cs, i + 1);
        return Err(NoTypes(i));
      }
      var claimed := ClaimTypes(c.types, i, owner, Declared(cs[..i]));
      if claimed.Err? {
        WellOwnedPrefix(cs, i + 1);
        return Err(claimed.error);
      }
      owner := claimed.value;
      i := i + 1;
    }
    assert cs[..i] == cs;
    return Ok(());
  }

  lemma Repeats<T>(s: seq<T>, t: T)
    requires t in s
    ensures !Distinct(s + [t])
  {
    var i :| 0 <= i < |s| && s[i] == t;
    assert (s + [t])[i] == (s + [t])[|s|];
  }
}
