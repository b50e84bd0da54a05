/** The API-key authenticator of internal/authz/apikey/apikey.go. */
module ApiKeys {
  import opened Wrappers
  import opened Text
  import opened Entities

  /** The two request headers a credential can come from; "" when absent. */
  datatype Headers = Headers(apiKey: string, authorization: string)

  datatype Identity = Identity(subject: string, roles: seq<string>)

  /** A store lookup: a row, no row, or a failure. */
  datatype Lookup = KnownKey(identity: Identity) | NoSuchKey | LookupFailed

  type KeyStore = string -> Lookup

  datatype AuthnError = InvalidKey | LookupError

  const BEARER_PREFIX := "Bearer "

  function CredentialFrom(h: Headers): string {
    var key := TrimSpace(h.apiKey);
    if key != "" then key
    else match CutPrefix(TrimSpace(h.authorization), BEARER_PREFIX)
      case Some(rest) => TrimSpace(rest)
      case None => ""
  }

  /** The key the request presents: its trimmed X-API-Key, or without one what follows "Bearer " in its
      trimmed Authorization. */
  ghost predicate Presents(h: Headers, key: string) {
    key != "" &&
    (key == TrimSpace(h.apiKey) ||
     (TrimSpace(h.apiKey) == "" && exists rest :: TrimSpace(h.authorization) == "Bearer " + rest && key == TrimSpace(rest)))
  }

  /** At most one key is presented, and it is the one that is looked up. */
  lemma CredentialMeaning(h: Headers, key: string)
    ensures Presents(h, key) <==> key != "" && key == CredentialFrom(h)
  {
    var a := TrimSpace(h.authorization);
    forall rest | a == "Bearer " + rest ensures CutPrefix(a, "Bearer ") == Some(rest) {
      assert a[|"Bearer "|..] == rest;
    }
    if CutPrefix(a, "Bearer ").Some? {
      assert a == "Bearer " + CutPrefix(a, "Bearer ").value;
    }
  }

  function ToPrincipal(identity: Identity): Principal {
    Principal(Uid(PRINCIPAL_TYPE, identity.subject),
              map[ROLES_CLAIM := SetOf(seq(|identity.roles|, i requires 0 <= i < |identity.roles| => Str(identity.roles[i])))])
  }

  /** toPrincipal's loop: the subject becomes the User entity, and a role is a parent exactly when
      the identity carries it. */
  method BuildPrincipal(identity: Identity) returns (p: Principal)
    ensures p == ToPrincipal(identity) && !IsAnonymous(p) && Represents(p, identity)
    ensures p.claims.Keys == {"roles"}
  {
    var roleValues: seq<Value> := [];
    for i := 0 to |identity.roles|
      invariant |roleValues| == i && forall j :: 0 <= j < i ==> roleValues[j] == Str(identity.roles[j])
    {
      roleValues := roleValues + [Str(identity.roles[i])];
    }
    p := Principal(Uid(PRINCIPAL_TYPE, identity.subject), map[ROLES_CLAIM := SetOf(roleValues)]);
    assert roleValues == ToPrincipal(identity).claims[ROLES_CLAIM].items;
    forall name ensures Role(name) in PrincipalEntity(p).parents <==> name in identity.roles {
      RolesProjected(identity, name);
    }
  }

  lemma RolesProjected(identity: Identity, name: string)
    ensures Role(name) in PrincipalEntity(ToPrincipal(identity)).parents <==> name in identity.roles
  {
    var items := ToPrincipal(identity).claims[ROLES_CLAIM].items;
    RoleUidsMeaning(items, Role(name));
    assert forall i :: 0 <= i < |items| ==> items[i] == Str(identity.roles[i]);
    if name in identity.roles {
      var i :| 0 <= i < |identity.roles| && identity.roles[i] == name;
      assert items[i] == Str(name);
    }
  }

  /** The principal is a User named by the subject whose Role parents are exactly the identity's roles. */
  ghost predicate Represents(p: Principal, identity: Identity) {
    && p.uid == Uid("User", identity.subject)
    && forall name :: Uid("Role", name) in PrincipalEntity(p).parents <==> name in identity.roles
  }

  /** No credential is the anonymous principal; an unknown or failed one is an error. */
  function AuthenticateSpec(store: KeyStore, h: Headers): Result<Principal, AuthnError> {
    var key := CredentialFrom(h);
    if key == "" then Ok(ANONYMOUS)
    else match store(key)
      case LookupFailed => Err(LookupError)
      case NoSuchKey => Err(InvalidKey)
      case KnownKey(identity) => Ok(ToPrincipal(identity))
  }

  method Authenticate(store: KeyStore, h: Headers) returns (r: Result<Principal, AuthnError>)
    ensures (forall key :: !Presents(h, key)) ==> r.Ok? && r.value.uid == Uid("Anonymous", "anonymous") && r.value.claims == map[]
    ensures forall key :: Presents(h, key) ==>
      match store(key)
      case LookupFailed => r == Err(LookupError)
      case NoSuchKey => r == Err(InvalidKey)
      case KnownKey(identity) => r.Ok? && Represents(r.value, identity)
    ensures r == AuthenticateSpec(store, h)
  {
    var key := CredentialFrom(h);
    forall k ensures Presents(h, k) <==> k != "" && k == key {
      CredentialMeaning(h, k);
    }
    assert key != "" ==> Presents(h, key);
    if key == "" {
      return Ok(ANONYMOUS);
    }
    match store(key) {
      case LookupFailed => return Err(LookupError);
      case NoSuchKey => return Err(InvalidKey);
      case KnownKey(identity) =>
        var p := BuildPrincipal(identity);
        return Ok(p);
    }
  }

  /** A key presented either way is the key that is looked up, and X-API-Key wins over Bearer. */
  lemma PresentedKeyIsRead(key: string, authorization: string)
    requires key != "" && IsTrimmed(key)
    ensures CredentialFrom(Headers(key, authorization)) == key
    ensures CredentialFrom(Headers("", BEARER_PREFIX + key)) == key
  {
    TrimmedIsFixed(key);
    var bearer := BEARER_PREFIX + key;
    assert bearer[0] == 'B' && bearer[|bearer| - 1] == key[|key| - 1];
    TrimmedIsFixed(bearer);
    assert bearer[|BEARER_PREFIX|..] == key;
  }
}
