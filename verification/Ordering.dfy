/** Repetition, strict orders, the one ascending arrangement of a finite set, and lexicographic order. */
module Ordering {

  /** No element occurs twice. */
  predicate Distinct<T(==)>(s: seq<T>) {
    forall i, j :: 0 <= i < j < |s| ==> s[i] != s[j]
  }

  lemma DistinctAppend<T>(s: seq<T>, t: seq<T>)
    ensures Distinct(s + t) <==> Distinct(s) && Distinct(t) && forall x :: x in s ==> x !in t
  {
    var all := s + t;
    assert forall i :: 0 <= i < |s| ==> all[i] == s[i];
    assert forall i :: 0 <= i < |t| ==> all[|s| + i] == t[i];
    if Distinct(all) {
      forall i, j | 0 <= i < |s| && 0 <= j < |t| ensures s[i] != t[j] { assert all[i] != all[|s| + j]; }
      forall i, j | 0 <= i < j < |t| ensures t[i] != t[j] { assert all[|s| + i] != all[|s| + j]; }
    }
    if Distinct(s) && Distinct(t) && forall x :: x in s ==> x !in t {
      forall i, j | 0 <= i < j < |all| ensures all[i] != all[j] {
        if i < |s| <= j { assert all[i] in s && all[j] in t; }
      }
    }
  }

  type Less<!T> = (T, T) -> bool

  /** lt orders the elements of s strictly and totally. */
  ghost predicate StrictOn<T(!new)>(lt: Less<T>, s: set<T>) {
    && (forall x :: x in s ==> !lt(x, x))
    && (forall x, y, z :: x in s && y in s && z in s && lt(x, y) && lt(y, z) ==> lt(x, z))
    && (forall x, y :: x in s && y in s ==> x == y || lt(x, y) || lt(y, x))
  }

  ghost predicate Ascending<T(!new)>(lt: Less<T>, s: seq<T>) {
    forall i, j :: 0 <= i < j < |s| ==> lt(s[i], s[j])
  }

  ghost predicate SameElements<T(!new)>(s: seq<T>, all: set<T>) {
    forall x :: x in s <==> x in all
  }

  /** s lists the elements of `all` in ascending order. */
  ghost predicate Lists<T(!new)>(lt: Less<T>, s: seq<T>, all: set<T>) {
    Ascending(lt, s) && SameElements(s, all)
  }

  /** There is only one such list. */
  lemma {:induction false} ListsUnique<T(!new)>(lt: Less<T>, a: seq<T>, b: seq<T>, all: set<T>)
    requires StrictOn(lt, all) && Lists(lt, a, all) && Lists(lt, b, all)
    ensures a == b
    decreases a
  {
    if a == [] {
      assert forall i :: 0 <= i < |b| ==> b[i] in a;
    } else {
      var x := a[0];
      assert x in b;
      var y := b[0];
      assert y in a;
      assert x == y;
      var rest := all - {x};
      TailLists(lt, a, all);
      TailLists(lt, b, all);
      ListsUnique(lt, a[1..], b[1..], rest);
      assert a == [x] + a[1..] && b == [x] + b[1..];
    }
  }

  lemma TailLists<T(!new)>(lt: Less<T>, s: seq<T>, all: set<T>)
    requires StrictOn(lt, all) && Lists(lt, s, all) && s != []
    ensures StrictOn(lt, all - {s[0]}) && Lists(lt, s[1..], all - {s[0]})
  {
    forall x | x in all - {s[0]} ensures x in s[1..] {
      assert x in s;
      assert s == [s[0]] + s[1..];
    }
    forall x | x in s[1..] ensures x in all - {s[0]} {
      var i :| 0 <= i < |s[1..]| && s[1..][i] == x;
      assert s[i + 1] == x && x in s;
    }
  }

  ghost function Insert<T(!new)>(lt: Less<T>, x: T, s: seq<T>): seq<T> {
    if s == [] then [x]
    else if lt(x, s[0]) then [x] + s
    else [s[0]] + Insert(lt, x, s[1..])
  }

  lemma {:induction false} InsertLists<T(!new)>(lt: Less<T>, x: T, s: seq<T>, all: set<T>)
    requires StrictOn(lt, all) && x in all && Lists(lt, s, all - {x})
    ensures Lists(lt, Insert(lt, x, s), all)
    decreases s
  {
    if s == [] {
      forall y ensures y in [x] <==> y in all {
        assert y in s <==> y in all - {x};
      }
    } else if lt(x, s[0]) {
      var r := [x] + s;
      forall i | 0 <= i < |s| ensures lt(x, s[i]) {
        assert s[i] in s && s[i] in all - {x} && s[0] in s;
      }
      forall i, j | 0 <= i < j < |r| ensures lt(r[i], r[j]) {
        if i > 0 { assert r[i] == s[i - 1] && r[j] == s[j - 1]; }
      }
      forall y ensures y in r <==> y in all {
        assert y in s <==> y in all - {x};
      }
    } else {
      var h := s[0];
      assert h in s && h != x && lt(h, x);
      assert StrictOn(lt, all - {x});
      TailLists(lt, s, all - {x});
      assert all - {x} - {h} == all - {h} - {x};
      InsertLists(lt, x, s[1..], all - {h});
      var t := Insert(lt, x, s[1..]);
      var r := [h] + t;
      forall i | 0 <= i < |t| ensures lt(h, t[i]) {
        assert t[i] in t && t[i] in all - {h};
        if t[i] != x {
          assert t[i] in s;
          var k :| 0 <= k < |s| && s[k] == t[i];
          assert k > 0;
        }
      }
      assert forall i :: 0 <= i < |t| ==> r[i + 1] == t[i];
      forall i, j | 0 <= i < j < |r| ensures lt(r[i], r[j]) {
        if i > 0 { assert r[i] == t[i - 1] && r[j] == t[j - 1]; }
      }
      forall y ensures y in r <==> y in all {
        assert y in t <==> y in all - {h};
      }
    }
  }

  /** The elements of a set in ascending order. */
  ghost function Sorted<T(!new)>(lt: Less<T>, all: set<T>): (s: seq<T>)
    requires StrictOn(lt, all)
    ensures Lists(lt, s, all)
  {
    if all == {} then []
    else
      var x :| x in all;
      var s := Sorted(lt, all - {x});
      InsertLists(lt, x, s, all);
      Insert(lt, x, s)
  }

  /** Any comparison sort: the same elements, in ascending order, from any arrangement. */
  method Sort<T(==,!new)>(lt: Less<T>, xs: seq<T>, ghost all: set<T>) returns (s: seq<T>)
    requires StrictOn(lt, all) && SameElements(xs, all)
    requires forall i, j :: 0 <= i < j < |xs| ==> xs[i] != xs[j]
    ensures s == Sorted(lt, all)
  {
    s := [];
    ghost var done: set<T> := {};
    for i := 0 to |xs|
      invariant done <= all && forall x :: x in done <==> x in xs[..i]
      invariant Lists(lt, s, done)
    {
      var x := xs[i];
      assert xs[..i + 1] == xs[..i] + [x];
      assert x in all && x !in done;
      ghost var done' := done + {x};
      assert done' - {x} == done && StrictOn(lt, done');
      InsertLists(lt, x, s, done');
      s := InsertInto(lt, x, s);
      done := done';
    }
    assert xs[..|xs|] == xs;
    assert done == all;
    ListsUnique(lt, s, Sorted(lt, all), all);
  }

  lemma InsertSteps<T(!new)>(lt: Less<T>, x: T, s: seq<T>, i: nat)
    requires i < |s| && !lt(x, s[i])
    ensures s[..i] + Insert(lt, x, s[i..]) == s[..i + 1] + Insert(lt, x, s[i + 1..])
  {
    assert s[i..][0] == s[i] && s[i..][1..] == s[i + 1..];
    var rest := Insert(lt, x, s[i + 1..]);
    assert Insert(lt, x, s[i..]) == [s[i]] + rest;
    assert s[..i + 1] + rest == s[..i] + ([s[i]] + rest);
  }

  method InsertInto<T(!new)>(lt: Less<T>, x: T, s: seq<T>) returns (r: seq<T>)
    ensures r == Insert(lt, x, s)
  {
    var i := 0;
    while i < |s| && !lt(x, s[i])
      invariant 0 <= i <= |s|
      invariant Insert(lt, x, s) == s[..i] + Insert(lt, x, s[i..])
    {
      InsertSteps(lt, x, s, i);
      i := i + 1;
    }
    assert Insert(lt, x, s[i..]) == [x] + s[i..] by {
      if i < |s| { assert s[i..][0] == s[i]; }
    }
    r := s[..i] + ([x] + s[i..]);
  }

  // ----- lexicographic order -----

  ghost predicate StrictTotal<T(!new)>(lt: Less<T>) {
    && (forall x :: !lt(x, x))
    && (forall x, y, z :: lt(x, y) && lt(y, z) ==> lt(x, z))
    && (forall x, y :: x == y || lt(x, y) || lt(y, x))
  }

  predicate LexLess<T(==)>(lt: Less<T>, a: seq<T>, b: seq<T>) {
    if a == [] || b == [] then a == [] && b != []
    else if a[0] == b[0] then LexLess(lt, a[1..], b[1..])
    else lt(a[0], b[0])
  }

  /** The first difference decides. */
  lemma {:induction false} LexByFirstDifference<T(!new)>(lt: Less<T>, a: seq<T>, b: seq<T>, i: nat)
    requires i < |a| && i < |b| && a[..i] == b[..i] && a[i] != b[i]
    ensures LexLess(lt, a, b) <==> lt(a[i], b[i])
    decreases i
  {
    if i > 0 {
      assert a[0] == a[..i][0] == b[..i][0] == b[0];
      assert a[1..][..i - 1] == a[..i][1..] == b[..i][1..] == b[1..][..i - 1];
      LexByFirstDifference(lt, a[1..], b[1..], i - 1);
    }
  }

  lemma {:induction false} LexTotal<T(!new)>(lt: Less<T>, a: seq<T>, b: seq<T>)
    requires StrictTotal(lt)
    ensures !LexLess(lt, a, a)
    ensures a == b || LexLess(lt, a, b) || LexLess(lt, b, a)
    decreases a
  {
    if a != [] {
      LexTotal(lt, a[1..], if b == [] then [] else b[1..]);
      if b != [] { assert a == [a[0]] + a[1..] && b == [b[0]] + b[1..]; }
    }
  }

  lemma {:induction false} LexTransitive<T(!new)>(lt: Less<T>, a: seq<T>, b: seq<T>, c: seq<T>)
    requires StrictTotal(lt) && LexLess(lt, a, b) && LexLess(lt, b, c)
    ensures LexLess(lt, a, c)
    decreases a
  {
    if a != [] && a[0] == b[0] == c[0] {
      LexTransitive(lt, a[1..], b[1..], c[1..]);
    }
  }
}
