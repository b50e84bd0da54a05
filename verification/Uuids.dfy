/** UUIDs as the database stores them and as the domain spells them (internal/todo/postgres/mapping.go):
    16 bytes, and the canonical lower-case text of section 4 of RFC 9562. */
module Uuids {
  import opened Wrappers
  import opened Text
  import opened Ordering

  type Byte = x: int | 0 <= x < 256

  type Uuid = s: seq<Byte> | |s| == 16 witness seq(16, i => 0)

  const TEXT_LENGTH := 36

  predicate IsDash(k: int) { k == 8 || k == 13 || k == 18 || k == 23 }

  /** Which of the 32 nibbles the character at k spells. */
  function NibbleAt(k: nat): nat
    requires k < TEXT_LENGTH && !IsDash(k)
    ensures NibbleAt(k) < 32
  {
    k - (if k > 23 then 4 else if k > 18 then 3 else if k > 13 then 2 else if k > 8 then 1 else 0)
  }

  /** Where nibble n is spelled. */
  function PlaceOf(n: nat): nat
    requires n < 32
    ensures PlaceOf(n) < TEXT_LENGTH && !IsDash(PlaceOf(n)) && NibbleAt(PlaceOf(n)) == n
  {
    n + (if n < 8 then 0 else if n < 12 then 1 else if n < 16 then 2 else if n < 20 then 3 else 4)
  }

  function Nibble(u: Uuid, n: nat): nat
    requires n < 32
    ensures Nibble(u, n) < 16
  {
    if n % 2 == 0 then u[n / 2] / 16 else u[n / 2] % 16
  }

  function HexDigit(x: nat): char
    requires x < 16
  {
    if x < 10 then (48 + x) as char else (87 + x) as char
  }

  /** A hex digit in either case, as uuid.Parse reads it. */
  function HexValue(ch: char): Option<nat> {
    if '0' <= ch <= '9' then Some(ch as nat - 48)
    else if 'a' <= ch <= 'f' then Some(ch as nat - 87)
    else if 'A' <= ch <= 'F' then Some(ch as nat - 55)
    else None
  }

  lemma HexValueBound(ch: char)
    ensures HexValue(ch).Some? ==> HexValue(ch).value < 16
  {
  }

  function CharAt(u: Uuid, k: nat): char
    requires k < TEXT_LENGTH
  {
    if IsDash(k) then '-' else HexDigit(Nibble(u, NibbleAt(k)))
  }

  /** UUID.String. */
  function ToText(u: Uuid): (s: string)
    ensures |s| == TEXT_LENGTH && forall k :: 0 <= k < TEXT_LENGTH ==> s[k] == CharAt(u, k)
  {
    seq(TEXT_LENGTH, k requires 0 <= k < TEXT_LENGTH => CharAt(u, k))
  }

  /** The dashed 36-character form, digits in either case. */
  predicate Parsable(s: string) {
    |s| == TEXT_LENGTH && forall k :: 0 <= k < TEXT_LENGTH ==>
      if IsDash(k) then s[k] == '-' else HexValue(s[k]).Some?
  }

  function NibbleOf(s: string, n: nat): nat
    requires Parsable(s) && n < 32
    ensures NibbleOf(s, n) < 16
  {
    HexValueBound(s[PlaceOf(n)]);
    HexValue(s[PlaceOf(n)]).value
  }

  function ParseDashed(s: string): Option<Uuid> {
    if Parsable(s) then
      Some(seq(16, i requires 0 <= i < 16 => (16 * NibbleOf(s, 2 * i) + NibbleOf(s, 2 * i + 1)) as Byte))
    else None
  }

  const URN_PREFIX := "urn:uuid:"

  predicate IsUrn(s: string) {
    |s| == 9 && forall i :: 0 <= i < 9 ==> Lower(s[i]) == URN_PREFIX[i]
  }

  predicate OneByte(ch: char) { ch < 128 as char }

  /** The 32 digits with their dashes put in. */
  function WithDashes(s: string): string
    requires |s| == 32
  {
    seq(TEXT_LENGTH, k requires 0 <= k < TEXT_LENGTH => if IsDash(k) then '-' else s[NibbleAt(k)])
  }

  /** The dashed form inside any of the four spellings uuid.Parse tells apart by length: dashed, as a URN,
      between any two one-byte characters (meant to be braces), and undashed. */
  function Dashed(s: string): Option<string> {
    if |s| == TEXT_LENGTH then Some(s)
    else if |s| == 45 && IsUrn(s[..9]) then Some(s[9..])
    else if |s| == 38 && OneByte(s[0]) && OneByte(s[37]) then Some(s[1..37])
    else if |s| == 32 then Some(WithDashes(s))
    else None
  }

  /** uuid.Parse. */
  function Parse(s: string): Option<Uuid> {
    match Dashed(s)
    case None => None
    case Some(dashed) => ParseDashed(dashed)
  }

  /** A UUID without its dashes. */
  function Undashed(u: Uuid): string {
    seq(32, n requires 0 <= n < 32 => HexDigit(Nibble(u, n)))
  }

  lemma HexRoundTrip(x: nat)
    requires x < 16
    ensures HexValue(HexDigit(x)) == Some(x)
  {
  }

  lemma PrintedParsable(u: Uuid)
    ensures Parsable(ToText(u))
  {
    var s := ToText(u);
    forall k: nat | k < TEXT_LENGTH
      ensures if IsDash(k) then s[k] == '-' else HexValue(s[k]).Some?
    {
      if !IsDash(k) { HexRoundTrip(Nibble(u, NibbleAt(k))); }
      hide HexValue, HexDigit, Nibble;
    }
  }

  lemma NibblePrinted(u: Uuid, n: nat)
    requires n < 32 && Parsable(ToText(u))
    ensures NibbleOf(ToText(u), n) == Nibble(u, n)
  {
    HexRoundTrip(Nibble(u, n));
    hide HexValue, HexDigit, Nibble, Parsable;
    assert ToText(u)[PlaceOf(n)] == CharAt(u, PlaceOf(n));
  }

  /** Parsing what was printed gives the UUID back. */
  lemma ParsePrinted(u: Uuid)
    ensures Parse(ToText(u)) == Some(u)
  {
    var s := ToText(u);
    PrintedParsable(u);
    hide Parsable, NibbleOf, ToText;
    var parsed := ParseDashed(s).value;
    forall i: nat | i < 16
      ensures parsed[i] == u[i]
    {
      NibblePrinted(u, 2 * i);
      NibblePrinted(u, 2 * i + 1);
      assert (2 * i + 1) / 2 == i && (2 * i) / 2 == i;
    }
    assert parsed == u;
  }

  /** Every spelling of a UUID parses to it, the URN prefix in either case. */
  lemma ParseSpellings(u: Uuid, urn: string, open: char, close: char)
    requires IsUrn(urn) && OneByte(open) && OneByte(close)
    ensures Parse(urn + ToText(u)) == Some(u)
    ensures Parse([open] + ToText(u) + [close]) == Some(u)
    ensures Parse(Undashed(u)) == Some(u)
  {
    ParsePrinted(u);
    var s := ToText(u);
    assert WithDashes(Undashed(u)) == s;
    hide ParseDashed, ToText, WithDashes, Undashed, IsUrn, OneByte;
    assert (urn + s)[..9] == urn && (urn + s)[9..] == s;
    assert ([open] + s + [close])[1..37] == s;
  }

  /** The spellings the library documents. */
  lemma ParseExamples(u: Uuid)
    ensures Parse("urn:uuid:" + ToText(u)) == Some(u) && Parse("URN:UUID:" + ToText(u)) == Some(u)
    ensures Parse("{" + ToText(u) + "}") == Some(u) && Parse(Undashed(u)) == Some(u)
  {
    assert IsUrn("urn:uuid:") && IsUrn("URN:UUID:") && OneByte('{') && OneByte('}');
    ParseSpellings(u, "urn:uuid:", '{', '}');
    ParseSpellings(u, "URN:UUID:", '{', '}');
  }

  /** Canonical text is 32 lower-case hex digits, high nibble first, with dashes after the 8th, 12th, 16th
      and 20th. */
  lemma TextMeaning(u: Uuid)
    ensures ToText(u)[8] == ToText(u)[13] == ToText(u)[18] == ToText(u)[23] == '-'
    ensures forall i :: 0 <= i < 16 ==>
      var k := 2 * i + (if i < 4 then 0 else if i < 6 then 1 else if i < 8 then 2 else if i < 10 then 3 else 4);
      ToText(u)[k] == "0123456789abcdef"[u[i] / 16] && ToText(u)[k + 1] == "0123456789abcdef"[u[i] % 16]
  {
    forall i: nat | i < 16
      ensures var k := 2 * i + (if i < 4 then 0 else if i < 6 then 1 else if i < 8 then 2 else if i < 10 then 3 else 4);
        ToText(u)[k] == "0123456789abcdef"[u[i] / 16] && ToText(u)[k + 1] == "0123456789abcdef"[u[i] % 16]
    {
      DigitMeaning(u[i] / 16);
      DigitMeaning(u[i] % 16);
      var k := 2 * i + (if i < 4 then 0 else if i < 6 then 1 else if i < 8 then 2 else if i < 10 then 3 else 4);
      assert k == PlaceOf(2 * i) && k + 1 == PlaceOf(2 * i + 1);
      assert NibbleAt(k) == 2 * i && NibbleAt(k + 1) == 2 * i + 1;
      hide HexDigit, ToText;
      assert ToText(u)[k] == CharAt(u, k) && ToText(u)[k + 1] == CharAt(u, k + 1);
      assert (2 * i) / 2 == i && (2 * i + 1) / 2 == i;
    }
  }

  lemma DigitMeaning(x: nat)
    requires x < 16
    ensures HexDigit(x) == "0123456789abcdef"[x]
  {
  }

  function LowerAll(s: string): string {
    seq(|s|, i requires 0 <= i < |s| => Lower(s[i]))
  }

  /** s spells u: its text in either case, alone, as a URN, between any two one-byte characters, or without
      dashes. */
  predicate Spells(s: string, u: Uuid) {
    || LowerAll(s) == ToText(u)
    || LowerAll(s) == "urn:uuid:" + ToText(u)
    || (|s| == 38 && OneByte(s[0]) && OneByte(s[37]) && LowerAll(s[1..37]) == ToText(u))
    || LowerAll(s) == Undashed(u)
  }

  lemma HexCase(ch: char, x: nat)
    requires x < 16
    ensures HexValue(ch) == Some(x) <==> Lower(ch) == HexDigit(x)
  {
  }

  lemma NibblesDecide(s: string, u: Uuid)
    requires Parsable(s)
    ensures ParseDashed(s) == Some(u) <==> forall n :: 0 <= n < 32 ==> NibbleOf(s, n) == Nibble(u, n)
  {
    var v := ParseDashed(s).value;
    hide Parsable, NibbleOf;
    forall n: nat | n < 32 ensures Nibble(v, n) == NibbleOf(s, n) {
      var i := n / 2;
      assert n == 2 * i || n == 2 * i + 1;
      assert v[i] == 16 * NibbleOf(s, 2 * i) + NibbleOf(s, 2 * i + 1);
    }
    if forall n :: 0 <= n < 32 ==> NibbleOf(s, n) == Nibble(u, n) {
      forall i: nat | i < 16 ensures v[i] == u[i] {
        assert Nibble(v, 2 * i) == Nibble(u, 2 * i) && Nibble(v, 2 * i + 1) == Nibble(u, 2 * i + 1);
        assert (2 * i) / 2 == i && (2 * i + 1) / 2 == i;
      }
      assert v == u;
    }
  }

  /** One character of the dashed form, digit or dash. */
  lemma CharDecides(s: string, u: Uuid, k: nat)
    requires |s| == TEXT_LENGTH && k < TEXT_LENGTH
    ensures Lower(s[k]) == ToText(u)[k] <==>
      if IsDash(k) then s[k] == '-' else HexValue(s[k]) == Some(Nibble(u, NibbleAt(k)))
  {
    if !IsDash(k) { HexCase(s[k], Nibble(u, NibbleAt(k))); }
    hide HexValue, HexDigit, Nibble;
    assert ToText(u)[k] == CharAt(u, k);
  }

  lemma ParseDashedMeaning(s: string, u: Uuid)
    ensures ParseDashed(s) == Some(u) <==> LowerAll(s) == ToText(u)
  {
    if |s| == TEXT_LENGTH {
      var t := ToText(u);
      forall k: nat | k < TEXT_LENGTH
        ensures LowerAll(s)[k] == t[k] <==> if IsDash(k) then s[k] == '-' else HexValue(s[k]) == Some(Nibble(u, NibbleAt(k)))
      {
        CharDecides(s, u, k);
      }
      hide ToText, LowerAll, HexValue, Nibble, ParseDashed;
      if Parsable(s) {
        NibblesDecide(s, u);
        assert forall n :: 0 <= n < 32 ==> HexValue(s[PlaceOf(n)]) == Some(NibbleOf(s, n));
        if LowerAll(s) == t {
          forall n | 0 <= n < 32 ensures NibbleOf(s, n) == Nibble(u, n) {
            assert LowerAll(s)[PlaceOf(n)] == t[PlaceOf(n)];
          }
        }
        if ParseDashed(s) == Some(u) {
          forall k: nat | k < TEXT_LENGTH ensures LowerAll(s)[k] == t[k] {
            if !IsDash(k) { assert PlaceOf(NibbleAt(k)) == k; }
          }
        }
      } else if LowerAll(s) == t {
        forall k: nat | k < TEXT_LENGTH ensures if IsDash(k) then s[k] == '-' else HexValue(s[k]).Some? {
          assert LowerAll(s)[k] == t[k];
        }
      }
    }
  }

  lemma UndashedMeaning(s: string, u: Uuid)
    requires |s| == 32
    ensures LowerAll(WithDashes(s)) == ToText(u) <==> LowerAll(s) == Undashed(u)
  {
    var d, t := WithDashes(s), ToText(u);
    forall n: nat | n < 32
      ensures Lower(s[n]) == Undashed(u)[n] <==> LowerAll(d)[PlaceOf(n)] == t[PlaceOf(n)]
    {
      assert t[PlaceOf(n)] == CharAt(u, PlaceOf(n));
    }
    forall k: nat | k < TEXT_LENGTH && IsDash(k) ensures LowerAll(d)[k] == t[k] {
      assert t[k] == CharAt(u, k);
    }
    assert forall k: nat :: k < TEXT_LENGTH && !IsDash(k) ==> PlaceOf(NibbleAt(k)) == k;
    hide HexDigit, Nibble, Lower, ToText, PlaceOf;
    if LowerAll(s) == Undashed(u) {
      forall k: nat | k < TEXT_LENGTH ensures LowerAll(d)[k] == t[k] {
        if !IsDash(k) { assert LowerAll(s)[NibbleAt(k)] == Undashed(u)[NibbleAt(k)]; }
      }
    }
  }

  lemma UrnMeaning(s: string, u: Uuid)
    requires |s| == 45
    ensures IsUrn(s[..9]) && LowerAll(s[9..]) == ToText(u) <==> LowerAll(s) == "urn:uuid:" + ToText(u)
  {
    var whole, t := "urn:uuid:" + ToText(u), LowerAll(s);
    hide Lower, ToText;
    if t == whole {
      forall i | 0 <= i < 9 ensures Lower(s[..9][i]) == URN_PREFIX[i] { assert t[i] == whole[i]; }
      forall i | 0 <= i < 36 ensures LowerAll(s[9..])[i] == ToText(u)[i] { assert t[9 + i] == whole[9 + i]; }
    }
    if IsUrn(s[..9]) && LowerAll(s[9..]) == ToText(u) {
      forall i | 0 <= i < 45 ensures t[i] == whole[i] {
        if i < 9 { assert s[..9][i] == s[i]; } else { assert LowerAll(s[9..])[i - 9] == ToText(u)[i - 9]; }
      }
    }
  }

  /** uuid.Parse reads exactly the four spellings, in either case, and nothing else. */
  lemma ParseMeaning(s: string, u: Uuid)
    ensures Parse(s) == Some(u) <==> Spells(s, u)
  {
    if Dashed(s).Some? { ParseDashedMeaning(Dashed(s).value, u); }
    if |s| == 32 { UndashedMeaning(s, u); }
    if |s| == 45 { UrnMeaning(s, u); }
    assert |LowerAll(s)| == |s| && |Undashed(u)| == 32;
    hide ParseDashed, ToText, Undashed, WithDashes, IsUrn, OneByte, LowerAll;
  }

  lemma TextInjective(u: Uuid, v: Uuid)
    requires ToText(u) == ToText(v)
    ensures u == v
  {
    ParsePrinted(u);
    ParsePrinted(v);
  }

  /** The text a UUID prints as. */
  ghost predicate Canonical(s: string) {
    exists u: Uuid :: ToText(u) == s
  }

  /** A canonical id is exactly what parsing and printing leaves alone. */
  lemma CanonicalMeaning(s: string)
    ensures Canonical(s) <==> Parse(s).Some? && ToText(Parse(s).value) == s
  {
    if Canonical(s) {
      var u: Uuid :| ToText(u) == s;
      ParsePrinted(u);
    }
  }

  // ----- order -----

  predicate CharLess(a: char, b: char) { a < b }
  predicate ByteLess(a: Byte, b: Byte) { a < b }

  /** Go's order on strings, and PostgreSQL's on uuid. */
  predicate TextLess(a: string, b: string) { LexLess(CharLess, a, b) }
  predicate UuidLess(a: Uuid, b: Uuid) { LexLess(ByteLess, a, b) }

  lemma {:induction false} FirstDifference(u: seq<Byte>, v: seq<Byte>) returns (i: nat)
    requires |u| == |v| && u != v
    ensures i < |u| && u[..i] == v[..i] && u[i] != v[i]
    decreases u
  {
    if u[0] != v[0] {
      i := 0;
    } else {
      assert u == [u[0]] + u[1..] && v == [v[0]] + v[1..];
      var j := FirstDifference(u[1..], v[1..]);
      i := j + 1;
      assert u[..i] == [u[0]] + u[1..][..j] && v[..i] == [v[0]] + v[1..][..j];
    }
  }

  /** The first differing nibble decides both orders. */
  lemma OrderByNibble(u: Uuid, v: Uuid, i: nat, n: nat)
    requires i < 16 && u[..i] == v[..i] && u[i] != v[i] && n / 2 == i && n < 32
    requires Nibble(u, n) != Nibble(v, n) && (n % 2 == 1 ==> Nibble(u, n - 1) == Nibble(v, n - 1))
    ensures TextLess(ToText(u), ToText(v)) <==> UuidLess(u, v)
  {
    var a, b, k := ToText(u), ToText(v), PlaceOf(n);
    forall j | 0 <= j < k ensures a[j] == b[j] {
      if !IsDash(j) {
        var m := NibbleAt(j);
        assert m < n;
        if m / 2 < i { assert u[..i][m / 2] == v[..i][m / 2]; }
      }
    }
    assert a[..k] == b[..k];
    assert a[k] == HexDigit(Nibble(u, n)) && b[k] == HexDigit(Nibble(v, n));
    LexByFirstDifference(CharLess, a, b, k);
    LexByFirstDifference(ByteLess, u, v, i);
  }

  /** Canonical text sorts exactly as the bytes do, so the two repositories order ids alike. */
  lemma OrderIsomorphism(u: Uuid, v: Uuid)
    ensures TextLess(ToText(u), ToText(v)) <==> UuidLess(u, v)
  {
    if u == v {
      LexTotal(CharLess, ToText(u), ToText(u));
      LexTotal(ByteLess, u, u);
    } else {
      var i := FirstDifference(u, v);
      var n := if u[i] / 16 != v[i] / 16 then 2 * i else 2 * i + 1;
      OrderByNibble(u, v, i, n);
    }
  }
}
