/** Cedar's view of the world: entity identifiers, values, entities and the calling principal
    (internal/authz/principal.go, internal/authz/principal_resolver.go). */
module Entities {

  datatype Uid = Uid(kind: string, id: string)

  datatype Value = Str(s: string) | SetOf(items: seq<Value>) | Time(at: int)

  type Record = map<string, Value>

  datatype Entity = Entity(uid: Uid, parents: seq<Uid>, attributes: Record)

  datatype Principal = Principal(uid: Uid, claims: Record)

  const ROLE_TYPE := "Role"
  const PRINCIPAL_TYPE := "User"
  const ANONYMOUS_TYPE := "Anonymous"
  const ROLES_CLAIM := "roles"

  const ANONYMOUS := Principal(Uid(ANONYMOUS_TYPE, "anonymous"), map[])

  predicate IsAnonymous(p: Principal) { p.uid.kind == ANONYMOUS_TYPE }

  function Role(name: string): Uid { Uid(ROLE_TYPE, name) }

  /** The Role parents named by the string members of a roles claim. */
  function RoleUids(items: seq<Value>): seq<Uid> {
    if items == [] then []
    else (if items[0].Str? then [Role(items[0].s)] else []) + RoleUids(items[1..])
  }

  /** The roles claim's members; none when it is missing or not a set. */
  function RoleItems(claims: Record): seq<Value> {
    if ROLES_CLAIM in claims && claims[ROLES_CLAIM].SetOf? then claims[ROLES_CLAIM].items else []
  }

  /** The entity Cedar sees for the principal: its claims, with its roles projected onto parents. */
  function PrincipalEntity(p: Principal): Entity {
    Entity(p.uid, RoleUids(RoleItems(p.claims)), p.claims)
  }

  /** A uid is a role parent exactly when the claim lists that role by name. */
  lemma {:induction false} RoleUidsMeaning(items: seq<Value>, u: Uid)
    ensures u in RoleUids(items) <==> u.kind == ROLE_TYPE && Str(u.id) in items
  {
    if items != [] {
      RoleUidsMeaning(items[1..], u);
      assert items == [items[0]] + items[1..];
    }
  }

  lemma {:induction false} RoleUidsAppend(items: seq<Value>, v: Value)
    ensures RoleUids(items + [v]) == RoleUids(items) + (if v.Str? then [Role(v.s)] else [])
  {
    if items != [] {
      RoleUidsAppend(items[1..], v);
      assert (items + [v])[1..] == items[1..] + [v];
    }
  }

  /** The claims list this role by name. */
  predicate Lists(claims: Record, name: string) {
    "roles" in claims && claims["roles"].SetOf? && Str(name) in claims["roles"].items
  }

  /** The principal's own uid, its claims as attributes, and as parents exactly the Role uids it lists. */
  ghost predicate DescribesPrincipal(e: Entity, p: Principal) {
    && e.uid == p.uid && e.attributes == p.claims
    && forall u :: u in e.parents <==> u.kind == "Role" && Lists(p.claims, u.id)
  }

  lemma PrincipalEntityMeaning(p: Principal)
    ensures DescribesPrincipal(PrincipalEntity(p), p)
  {
    forall u ensures u in PrincipalEntity(p).parents <==> u.kind == "Role" && Lists(p.claims, u.id) {
      RoleUidsMeaning(RoleItems(p.claims), u);
    }
  }

  /** roleParents: appends one uid per string role. */
  method RoleParents(claims: Record) returns (uids: seq<Uid>)
    ensures uids == RoleUids(RoleItems(claims))
    ensures forall u :: u in uids <==> u.kind == "Role" && Lists(claims, u.id)
  {
    uids := [];
    if ROLES_CLAIM in claims && claims[ROLES_CLAIM].SetOf? {
      var items := claims[ROLES_CLAIM].items;
      for i := 0 to |items|
        invariant uids == RoleUids(items[..i])
      {
        assert items[..i + 1] == items[..i] + [items[i]];
        RoleUidsAppend(items[..i], items[i]);
        if items[i].Str? {
          uids := uids + [Role(items[i].s)];
        }
      }
      assert items[..|items|] == items;
    }
    forall u ensures u in uids <==> u.kind == "Role" && Lists(claims, u.id) {
      RoleUidsMeaning(RoleItems(claims), u);
    }
  }
}
