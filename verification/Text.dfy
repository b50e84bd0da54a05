/** The string operations of Go's standard library that the model needs. */
module Text {
  import opened Wrappers

  /** unicode.IsSpace. */
  predicate IsSpace(ch: char) {
    var x := ch as int;
    9 <= x <= 13 || x == 0x20 || x == 0x85 || x == 0xA0 || x == 0x1680 || 0x2000 <= x <= 0x200A
    || x == 0x2028 || x == 0x2029 || x == 0x202F || x == 0x205F || x == 0x3000
  }

  /** An ASCII letter in lower case. */
  function Lower(ch: char): char {
    if 'A' <= ch <= 'Z' then (ch as int + 32) as char else ch
  }

  lemma LowerMeaning(ch: char)
    ensures ch in "ABCDEFGHIJKLMNOPQRSTUVWXYZ" <==> Lower(ch) != ch
    ensures forall i :: 0 <= i < 13 ==>
      Lower("ABCDEFGHIJKLM"[i]) == "abcdefghijklm"[i] && Lower("NOPQRSTUVWXYZ"[i]) == "nopqrstuvwxyz"[i]
  {
  }

  function TrimLeft(s: string): string {
    if s != [] && IsSpace(s[0]) then TrimLeft(s[1..]) else s
  }

  function TrimRight(s: string): string {
    if s != [] && IsSpace(s[|s| - 1]) then TrimRight(s[..|s| - 1]) else s
  }

  /** strings.TrimSpace. */
  function TrimSpace(s: string): string { TrimRight(TrimLeft(s)) }

  /** No white space at either end. */
  predicate IsTrimmed(s: string) {
    s != [] ==> !IsSpace(s[0]) && !IsSpace(s[|s| - 1])
  }

  lemma {:induction false} TrimRightMeaning(s: string)
    ensures TrimRight(s) <= s && (TrimRight(s) != [] ==> !IsSpace(TrimRight(s)[|TrimRight(s)| - 1]))
    ensures AllSpace(s[|TrimRight(s)|..])
  {
    if s != [] && IsSpace(s[|s| - 1]) {
      TrimRightMeaning(s[..|s| - 1]);
    }
  }

  lemma {:induction false} TrimLeftMeaning(s: string)
    ensures TrimLeft(s) != [] ==> !IsSpace(TrimLeft(s)[0])
    ensures |TrimLeft(s)| <= |s| && TrimLeft(s) == s[|s| - |TrimLeft(s)|..] && AllSpace(s[..|s| - |TrimLeft(s)|])
  {
    if s != [] && IsSpace(s[0]) {
      TrimLeftMeaning(s[1..]);
    }
  }

  predicate AllSpace(s: string) {
    forall i :: 0 <= i < |s| ==> IsSpace(s[i])
  }

  /** The white space characters, one by one. */
  lemma SpaceMeaning(ch: char)
    ensures IsSpace(ch) <==>
      ch in "\t\n\U{000B}\U{000C}\r \U{0085}\U{00A0}\U{1680}\U{2028}\U{2029}\U{202F}\U{205F}\U{3000}" ||
      ch in "\U{2000}\U{2001}\U{2002}\U{2003}\U{2004}\U{2005}\U{2006}\U{2007}\U{2008}\U{2009}\U{200A}"
  {
  }

  /** Trimming takes white space off both ends, all of it and nothing else. */
  lemma TrimSpaceTrims(s: string) returns (before: string, after: string)
    ensures IsTrimmed(TrimSpace(s))
    ensures s == before + TrimSpace(s) + after && AllSpace(before) && AllSpace(after)
  {
    var rest := TrimLeft(s);
    TrimLeftMeaning(s);
    TrimRightMeaning(rest);
    before := s[..|s| - |rest|];
    after := rest[|TrimSpace(s)|..];
    assert s == before + rest && rest == TrimSpace(s) + after;
  }

  lemma TrimmedIsFixed(s: string)
    requires IsTrimmed(s)
    ensures TrimSpace(s) == s
  {
  }

  /** strings.Cut before the first separator. */
  function CutBefore(s: string, sep: char): Option<string> {
    if s == [] then None
    else if s[0] == sep then Some([])
    else match CutBefore(s[1..], sep)
      case None => None
      case Some(rest) => Some([s[0]] + rest)
  }

  /** The cut is at the first separator, wherever that is. */
  lemma {:induction false} CutBeforeMeaning(a: string, sep: char, b: string)
    requires sep !in a
    ensures CutBefore(a + [sep] + b, sep) == Some(a) && CutBefore(a, sep) == None
  {
    var s := a + [sep] + b;
    if a != [] {
      assert s[1..] == a[1..] + [sep] + b;
      CutBeforeMeaning(a[1..], sep, b);
      assert a == [a[0]] + a[1..];
    }
  }

  /** strings.CutPrefix. */
  function CutPrefix(s: string, prefix: string): Option<string> {
    if prefix <= s then Some(s[|prefix|..]) else None
  }

  // ----- decimal numerals -----

  function Digit(n: nat): char
    requires n < 10
  {
    (48 + n) as char
  }

  /** %d of a natural number. */
  function Decimal(n: nat): string {
    if n < 10 then [Digit(n)] else Decimal(n / 10) + [Digit(n % 10)]
  }

  lemma {:induction false} DecimalInjective(m: nat, n: nat)
    requires Decimal(m) == Decimal(n)
    ensures m == n
  {
    var a, b := Decimal(m), Decimal(n);
    DecimalNonEmpty(m / 10);
    DecimalNonEmpty(n / 10);
    assert a[|a| - 1] == b[|b| - 1];
    assert m % 10 == n % 10;
    if m >= 10 && n >= 10 {
      assert Decimal(m / 10) == a[..|a| - 1] == b[..|b| - 1] == Decimal(n / 10);
      DecimalInjective(m / 10, n / 10);
    }
  }

  lemma DecimalNonEmpty(n: nat)
    ensures |Decimal(n)| >= 1
  {
  }

  lemma {:induction false} DecimalIsDigits(n: nat)
    ensures forall i :: 0 <= i < |Decimal(n)| ==> '0' <= Decimal(n)[i] <= '9'
  {
    if n >= 10 { DecimalIsDigits(n / 10); }
  }
}
