/** New and mergePolicies of internal/authz/authz.go: the base and every slice's policies go into
    one set under ids "<slice>#<n>". */
module PolicyMerge {
  import opened Wrappers
  import opened Text
  import opened Entities
  import opened Query
  import opened Cedar
  import opened Ancestry
  import opened Ownership

  /** A slice's .cedar source: absent, unparsable, or a list of policies. */
  datatype Document = Absent | Malformed | Parsed(policies: seq<Policy>)

  function PoliciesOf(d: Document): seq<Policy> {
    if d.Parsed? then d.policies else []
  }

  /** Where a policy comes from. */
  datatype Origin = Base | Slice(index: nat)

  function SliceName(o: Origin): string {
    match o
    case Base => "base"
    case Slice(i) => "slice" + Decimal(i)
  }

  function PolicyId(o: Origin, n: nat): string {
    SliceName(o) + "#" + Decimal(n)
  }

  lemma SliceNameInjective(o: Origin, o': Origin)
    requires SliceName(o) == SliceName(o')
    ensures o == o'
  {
    assert "base"[0] == 'b' && "slice"[0] == 's';
    if o.Slice? && o'.Slice? {
      assert SliceName(o)[5..] == Decimal(o.index) && SliceName(o')[5..] == Decimal(o'.index);
      DecimalInjective(o.index, o'.index);
    }
  }

  lemma SliceNameHasNoHash(o: Origin)
    ensures '#' !in SliceName(o)
  {
    if o.Slice? { DecimalIsDigits(o.index); }
  }

  /** A text is cut at its first '#' in one way only. */
  lemma CutIsUnique(a: string, b: string, a': string, b': string)
    requires '#' !in a && '#' !in a' && a + "#" + b == a' + "#" + b'
    ensures a == a' && b == b'
  {
    var s := a + "#" + b;
    assert s[|a|] == '#' && s[|a'|] == '#';
    assert forall i :: 0 <= i < |a| ==> s[i] == a[i] != '#';
    assert forall i :: 0 <= i < |a'| ==> s[i] == a'[i] != '#';
    assert a == s[..|a|] == a';
    assert b == s[|a| + 1..] == b';
  }

  /** No two policies of the merge share an id. */
  lemma PolicyIdInjective(o: Origin, n: nat, o': Origin, n': nat)
    requires PolicyId(o, n) == PolicyId(o', n')
    ensures o == o' && n == n'
  {
    SliceNameHasNoHash(o);
    SliceNameHasNoHash(o');
    CutIsUnique(SliceName(o), Decimal(n), SliceName(o'), Decimal(n'));
    SliceNameInjective(o, o');
    DecimalInjective(n, n');
  }

  /** Ids name the document and the place in it. */
  lemma PolicyIdExamples()
    ensures PolicyId(Base, 0) == "base#0" && PolicyId(Slice(0), 7) == "slice0#7" && PolicyId(Slice(12), 3) == "slice12#3"
  {
    assert Decimal(12) == Decimal(1) + [Digit(2)];
  }

  function DocumentOf(base: Document, docs: seq<Document>, o: Origin): seq<Policy> {
    match o
    case Base => PoliciesOf(base)
    case Slice(i) => if i < |docs| then PoliciesOf(docs[i]) else []
  }

  /** The set holds exactly the policies of every origin, each under its own id. */
  ghost predicate Holds(merged: map<string, Policy>, base: Document, docs: seq<Document>) {
    && (forall o, n: nat {:trigger DocumentOf(base, docs, o)[n]} :: n < |DocumentOf(base, docs, o)| ==>
          PolicyId(o, n) in merged && merged[PolicyId(o, n)] == DocumentOf(base, docs, o)[n])
    && (forall id :: id in merged ==> exists o, n: nat {:trigger DocumentOf(base, docs, o)[n]} ::
          n < |DocumentOf(base, docs, o)| && id == PolicyId(o, n))
  }

  /** Adds one document's policies; fails on a document that does not parse. */
  method MergePolicies(dst: map<string, Policy>, o: Origin, doc: Document) returns (r: Result<map<string, Policy>, Origin>)
    ensures r.Err? <==> doc.Malformed?
    ensures r.Err? ==> r.error == o
    ensures r.Ok? ==> Adds(dst, r.value, o, PoliciesOf(doc), |PoliciesOf(doc)|)
  {
    if doc.Malformed? {
      return Err(o);
    }
    hide PolicyId, Adds;
    var list := PoliciesOf(doc);
    var merged := dst;
    AddsNone(dst, o, list);
    for n := 0 to |list|
      invariant Adds(dst, merged, o, list, n)
    {
      AddsOne(dst, merged, o, list, n);
      merged := merged[PolicyId(o, n) := list[n]];
    }
    return Ok(merged);
  }

  /** `after` is `before` with the first n policies of the list added (or replaced) under o. */
  ghost predicate Adds(before: map<string, Policy>, after: map<string, Policy>, o: Origin, list: seq<Policy>, n: nat)
    requires n <= |list|
  {
    && (forall k: nat :: k < n ==> PolicyId(o, k) in after && after[PolicyId(o, k)] == list[k])
    && (forall id :: id in after ==> id in before || exists k: nat :: k < n && id == PolicyId(o, k))
    && (forall id :: id in before && (forall k: nat :: k < n ==> id != PolicyId(o, k)) ==>
          id in after && after[id] == before[id])
  }

  lemma AddsNone(before: map<string, Policy>, o: Origin, list: seq<Policy>)
    ensures Adds(before, before, o, list, 0)
  {
  }

  lemma AddsOne(before: map<string, Policy>, after: map<string, Policy>, o: Origin, list: seq<Policy>, n: nat)
    requires n < |list| && Adds(before, after, o, list, n)
    ensures Adds(before, after[PolicyId(o, n) := list[n]], o, list, n + 1)
  {
    forall k: nat | k < n ensures PolicyId(o, k) != PolicyId(o, n) {
      if PolicyId(o, k) == PolicyId(o, n) { PolicyIdInjective(o, k, o, n); }
    }
    hide PolicyId;
  }

  lemma AddsHolds(before: map<string, Policy>, after: map<string, Policy>, base: Document, docs: seq<Document>, doc: Document)
    requires Holds(before, base, docs)
    requires Adds(before, after, Slice(|docs|), PoliciesOf(doc), |PoliciesOf(doc)|)
    ensures Holds(after, base, docs + [doc])
  {
    var docs', here := docs + [doc], Slice(|docs|);
    assert forall o :: o != here ==> DocumentOf(base, docs', o) == DocumentOf(base, docs, o);
    assert DocumentOf(base, docs, here) == [] && DocumentOf(base, docs', here) == PoliciesOf(doc);
    forall o, n: nat | n < |DocumentOf(base, docs', o)|
      ensures PolicyId(o, n) in after && after[PolicyId(o, n)] == DocumentOf(base, docs', o)[n]
    {
      if o != here {
        var p := DocumentOf(base, docs, o)[n];
        forall k: nat | k < |PoliciesOf(doc)| ensures PolicyId(here, k) != PolicyId(o, n) {
          if PolicyId(here, k) == PolicyId(o, n) { PolicyIdInjective(here, k, o, n); }
        }
      }
    }
    forall id | id in after
      ensures exists o, n: nat {:trigger DocumentOf(base, docs', o)[n]} :: n < |DocumentOf(base, docs', o)| && id == PolicyId(o, n)
    {
      if id in before {
        var o, n: nat :| n < |DocumentOf(base, docs, o)| && id == PolicyId(o, n);
        assert n < |DocumentOf(base, docs', o)| && DocumentOf(base, docs', o)[n] == DocumentOf(base, docs, o)[n];
      } else {
        var k: nat :| k < |PoliciesOf(doc)| && id == PolicyId(here, k);
        assert DocumentOf(base, docs', here)[k] == PoliciesOf(doc)[k];
      }
    }
  }

  lemma BaseHolds(after: map<string, Policy>, base: Document)
    requires Adds(map[], after, Base, PoliciesOf(base), |PoliciesOf(base)|)
    ensures Holds(after, base, [])
  {
    var none: seq<Document> := [];
    assert DocumentOf(base, none, Base) == PoliciesOf(base);
    forall o, n: nat | n < |DocumentOf(base, none, o)|
      ensures PolicyId(o, n) in after && after[PolicyId(o, n)] == DocumentOf(base, none, o)[n]
    {
      assert o == Base;
    }
    forall id | id in after
      ensures exists o, n: nat {:trigger DocumentOf(base, none, o)[n]} :: n < |DocumentOf(base, none, o)| && id == PolicyId(o, n)
    {
      var k: nat :| k < |PoliciesOf(base)| && id == PolicyId(Base, k);
      assert DocumentOf(base, none, Base)[k] == PoliciesOf(base)[k];
    }
  }

  /** The first document, base before slices, that does not parse. */
  predicate FirstMalformed(base: Document, docs: seq<Document>, o: Origin) {
    match o
    case Base => base.Malformed?
    case Slice(i) => !base.Malformed? && i < |docs| && docs[i].Malformed? && Malformed !in docs[..i]
  }

  /** The merge loop of New: it succeeds exactly when every document parses, and then no policy is
      lost, replaced or duplicated. */
  method MergeAll(base: Document, docs: seq<Document>) returns (r: Result<map<string, Policy>, Origin>)
    ensures r.Ok? <==> !base.Malformed? && Malformed !in docs
    ensures r.Ok? ==> Holds(r.value, base, docs)
    ensures r.Err? ==> FirstMalformed(base, docs, r.error)
  {
    r := MergePolicies(map[], Base, base);
    if r.Err? {
      return;
    }
    var merged := r.value;
    BaseHolds(merged, base);
    for i := 0 to |docs|
      invariant Holds(merged, base, docs[..i]) && Malformed !in docs[..i]
    {
      assert docs[..i + 1] == docs[..i] + [docs[i]];
      if docs[i] == Absent {
        AddsHolds(merged, merged, base, docs[..i], Absent);
      } else {
        r := MergePolicies(merged, Slice(i), docs[i]);
        if r.Err? {
          return;
        }
        AddsHolds(merged, r.value, base, docs[..i], docs[i]);
        merged := r.value;
      }
    }
    assert docs[..|docs|] == docs;
    r := Ok(merged);
  }

  datatype NewError = BadOwnership(fault: OwnershipError) | BadPolicies(origin: Origin)

  /** authz.New: succeeds exactly when type ownership is unambiguous and every document parses; the
      engine then holds every policy once, and the principal resolver ahead of the slices'. */
  method New(cs: seq<Contribution>, base: Document, docs: seq<Document>)
      returns (r: Result<(map<string, Policy>, seq<Contribution>), NewError>)
    ensures r.Ok? <==> WellOwned(cs) && !base.Malformed? && Malformed !in docs
    ensures r.Ok? ==> Holds(r.value.0, base, docs) && r.value.1 == [PRINCIPAL_CONTRIBUTION] + cs
    ensures r.Err? && r.error.BadOwnership? ==> !WellOwned(cs) && Blames(cs, r.error.fault)
    ensures r.Err? && r.error.BadPolicies? ==> WellOwned(cs) && FirstMalformed(base, docs, r.error.origin)
  {
    hide Holds, WellOwned;
    var owned := ValidateTypeOwnership(cs);
    if owned.Err? {
      return Err(BadOwnership(owned.error));
    }
    var merged := MergeAll(base, docs);
    if merged.Err? {
      return Err(BadPolicies(merged.error));
    }
    return Ok((merged.value, [PRINCIPAL_CONTRIBUTION] + cs));
  }

  predicate Contributed(p: Policy, base: Document, docs: seq<Document>) {
    p in PoliciesOf(base) || exists d :: d in docs && p in PoliciesOf(d)
  }

  lemma MergedValues(merged: map<string, Policy>, base: Document, docs: seq<Document>, p: Policy)
    requires Holds(merged, base, docs)
    ensures p in merged.Values <==> Contributed(p, base, docs)
  {
    hide PolicyId;
    if p in merged.Values {
      var id :| id in merged && merged[id] == p;
      var o, n: nat :| n < |DocumentOf(base, docs, o)| && id == PolicyId(o, n);
      assert p == DocumentOf(base, docs, o)[n];
    }
    if p in PoliciesOf(base) {
      var n: nat :| n < |PoliciesOf(base)| && PoliciesOf(base)[n] == p;
      assert DocumentOf(base, docs, Base)[n] == p;
      assert merged[PolicyId(Base, n)] == p;
    } else if Contributed(p, base, docs) {
      var d :| d in docs && p in PoliciesOf(d);
      var i: nat :| i < |docs| && docs[i] == d;
      var n: nat :| n < |PoliciesOf(d)| && PoliciesOf(d)[n] == p;
      assert DocumentOf(base, docs, Slice(i))[n] == p;
      assert merged[PolicyId(Slice(i), n)] == p;
    }
  }

  /** Some order of the merged set's policies; repetitions do not matter. */
  ghost predicate Walks(walk: seq<Policy>, merged: map<string, Policy>) {
    forall p :: p in walk <==> p in merged.Values
  }

  /** Whatever order the merged set is walked in, and whatever order the slices came in, the decision
      is: some contributed permit applies and no contributed forbid does. */
  lemma MergedDecision(merged: map<string, Policy>, base: Document, docs: seq<Document>, walk: seq<Policy>,
      req: Request, fuel: nat, facts: Facts)
    requires Holds(merged, base, docs) && Walks(walk, merged)
    ensures Total(Evaluation(walk, req, fuel, false, false))
    ensures Decide(Evaluation(walk, req, fuel, false, false), facts) == Allow <==>
      && (exists p :: Contributed(p, base, docs) && p.effect == Permit && Satisfied(p, req, fuel, facts))
      && !(exists p :: Contributed(p, base, docs) && p.effect == Forbid && Satisfied(p, req, fuel, facts))
  {
    ForbidOverridesPermit(walk, req, fuel, facts);
    forall p ensures p in walk <==> Contributed(p, base, docs) {
      MergedValues(merged, base, docs, p);
    }
    hide Contributed, Satisfied, Evaluation, Decide;
    assert forall e :: Applies(walk, e, req, fuel, facts) <==>
      exists p :: Contributed(p, base, docs) && p.effect == e && Satisfied(p, req, fuel, facts);
  }

  /** The same by ancestry, for every bound that covers the entities the request can reach. */
  lemma MergedByAncestry(merged: map<string, Policy>, base: Document, docs: seq<Document>, walk: seq<Policy>,
      req: Request, r: set<Uid>, fuel: nat, facts: Facts)
    requires Holds(merged, base, docs) && Walks(walk, merged)
    requires Closed(r, facts) && {req.principal, req.action, req.resource} <= r && |r| <= fuel
    ensures Total(Evaluation(walk, req, fuel, false, false))
    ensures Decide(Evaluation(walk, req, fuel, false, false), facts) == Allow <==>
      && (exists p :: Contributed(p, base, docs) && p.effect.Permit? && Matches(p, req, facts))
      && !(exists p :: Contributed(p, base, docs) && p.effect.Forbid? && Matches(p, req, facts))
  {
    DecisionByAncestry(walk, req, r, fuel, facts);
    forall p ensures p in walk <==> Contributed(p, base, docs) {
      MergedValues(merged, base, docs, p);
    }
    hide Contributed, Matches, Evaluation, Decide, Closed;
  }
}
