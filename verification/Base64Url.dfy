/** base64.RawURLEncoding: the URL-safe alphabet without padding (sections 5 and 3.2 of RFC 4648). */
module Base64Url {
  import opened Wrappers
  import opened Uuids

  type Sextet = x: int | 0 <= x < 64

  function Digit(x: Sextet): char {
    if x < 26 then (65 + x) as char
    else if x < 52 then (71 + x) as char
    else if x < 62 then (x - 4) as char
    else if x == 62 then '-'
    else '_'
  }

  function Value(ch: char): Option<Sextet> {
    if 'A' <= ch <= 'Z' then Some(ch as int - 65)
    else if 'a' <= ch <= 'z' then Some(ch as int - 71)
    else if '0' <= ch <= '9' then Some(ch as int + 4)
    else if ch == '-' then Some(62)
    else if ch == '_' then Some(63)
    else None
  }

  lemma ValueOfDigit(x: Sextet)
    ensures Value(Digit(x)) == Some(x) && Digit(x) != '\r' && Digit(x) != '\n'
  {
  }

  /** The four sextets of three bytes. */
  function Top(a: Byte): Sextet { a / 4 }
  function Upper(a: Byte, b: Byte): Sextet { a % 4 * 16 + b / 16 }
  function Lower(b: Byte, c: Byte): Sextet { b % 16 * 4 + c / 64 }
  function Bottom(c: Byte): Sextet { c % 64 }

  /** The sextets of the bytes, three by three; a short group ends in zero bits. */
  function Sextets(b: seq<Byte>): seq<Sextet>
    decreases b
  {
    if |b| == 0 then []
    else if |b| == 1 then [Top(b[0]), Upper(b[0], 0)]
    else if |b| == 2 then [Top(b[0]), Upper(b[0], b[1]), Lower(b[1], 0)]
    else [Top(b[0]), Upper(b[0], b[1]), Lower(b[1], b[2]), Bottom(b[2])] + Sextets(b[3..])
  }

  function First(x: int, y: int): Byte
    requires 0 <= x < 64 && 0 <= y < 64
  {
    x * 4 + y / 16
  }

  function Second(x: int, y: int): Byte
    requires 0 <= x < 64 && 0 <= y < 64
  {
    x % 16 * 16 + y / 4
  }

  function Third(x: int, y: int): Byte
    requires 0 <= x < 64 && 0 <= y < 64
  {
    x % 4 * 64 + y
  }

  /** The inverse; a single left-over sextet is an error, left-over bits are ignored. */
  function Bytes(x: seq<Sextet>): Option<seq<Byte>>
    decreases x
  {
    if |x| == 0 then Some([])
    else if |x| == 1 then None
    else if |x| == 2 then Some([First(x[0], x[1])])
    else if |x| == 3 then Some([First(x[0], x[1]), Second(x[1], x[2])])
    else match Bytes(x[4..])
      case None => None
      case Some(rest) => Some([First(x[0], x[1]), Second(x[1], x[2]), Third(x[2], x[3])] + rest)
  }

  lemma GroupRoundTrip(a: Byte, b: Byte, c: Byte)
    ensures First(Top(a), Upper(a, b)) == a
    ensures Second(Upper(a, b), Lower(b, c)) == b
    ensures Third(Lower(b, c), Bottom(c)) == c
  {
  }

  lemma {:induction false} BytesOfSextets(b: seq<Byte>)
    ensures Bytes(Sextets(b)) == Some(b)
    decreases b
  {
    hide First, Second, Third, Top, Upper, Lower, Bottom;
    if |b| == 1 {
      GroupRoundTrip(b[0], 0, 0);
      assert b == [b[0]];
    } else if |b| == 2 {
      GroupRoundTrip(b[0], b[1], 0);
      assert b == [b[0], b[1]];
    } else if |b| >= 3 {
      GroupRoundTrip(b[0], b[1], b[2]);
      BytesOfSextets(b[3..]);
      assert Sextets(b)[4..] == Sextets(b[3..]);
      assert b == [b[0], b[1], b[2]] + b[3..];
    }
  }

  /** The alphabet, character by character. */
  lemma DigitMeaning(x: Sextet)
    ensures x < 13 ==> Digit(x) == "ABCDEFGHIJKLM"[x]
    ensures 13 <= x < 26 ==> Digit(x) == "NOPQRSTUVWXYZ"[x - 13]
    ensures 26 <= x < 39 ==> Digit(x) == "abcdefghijklm"[x - 26]
    ensures 39 <= x < 52 ==> Digit(x) == "nopqrstuvwxyz"[x - 39]
    ensures 52 <= x ==> Digit(x) == "0123456789-_"[x - 52]
  {
  }

  /** Four sextets are the same 24-bit number as the three bytes they encode. */
  lemma GroupValue(a: Byte, b: Byte, c: Byte)
    ensures 65536 * a + 256 * b + c == 262144 * Top(a) + 4096 * Upper(a, b) + 64 * Lower(b, c) + Bottom(c)
  {
  }

  /** The test vectors of section 10 of RFC 4648, without padding. */
  lemma TestVectors()
    ensures Encode([102]) == "Zg" && Encode([102, 111]) == "Zm8" && Encode([102, 111, 111]) == "Zm9v"
    ensures Encode([255, 239]) == "_-8"
  {
    assert Sextets([102]) == [25, 32] && Sextets([102, 111]) == [25, 38, 60];
    assert [102, 111, 111][3..] == [];
    assert Sextets([102, 111, 111]) == [25, 38, 61, 47] + Sextets([]);
    assert Sextets([255, 239]) == [63, 62, 60];
  }

  function Encode(b: seq<Byte>): (s: string) {
    var x := Sextets(b);
    seq(|x|, i requires 0 <= i < |x| => Digit(x[i]))
  }

  /** The decoder skips line breaks. */
  function WithoutBreaks(s: string): string {
    if s == [] then []
    else (if s[0] == '\r' || s[0] == '\n' then [] else [s[0]]) + WithoutBreaks(s[1..])
  }

  function Values(s: string): Option<seq<Sextet>> {
    if s == [] then Some([])
    else match (Value(s[0]), Values(s[1..]))
      case (Some(x), Some(rest)) => Some([x] + rest)
      case _ => None
  }

  function Decode(s: string): Option<seq<Byte>> {
    match Values(WithoutBreaks(s))
    case None => None
    case Some(x) => Bytes(x)
  }

  /** A character that is neither in the alphabet nor a line break makes the text undecodable. */
  lemma {:induction false} ForeignRefused(s: string, i: nat)
    requires i < |s| && Value(s[i]).None? && s[i] != '\r' && s[i] != '\n'
    ensures Decode(s) == None
  {
    ForeignStays(s, i);
  }

  lemma {:induction false} ForeignStays(s: string, i: nat)
    requires i < |s| && Value(s[i]).None? && s[i] != '\r' && s[i] != '\n'
    ensures Values(WithoutBreaks(s)) == None
    decreases i
  {
    var rest := WithoutBreaks(s[1..]);
    if i > 0 { ForeignStays(s[1..], i - 1); }
    if s[0] != '\r' && s[0] != '\n' {
      assert ([s[0]] + rest)[1..] == rest;
    } else {
      assert [] + rest == rest;
    }
  }

  lemma {:induction false} DigitsDecode(x: seq<Sextet>, s: string)
    requires |s| == |x| && forall i :: 0 <= i < |x| ==> s[i] == Digit(x[i])
    ensures WithoutBreaks(s) == s && Values(s) == Some(x)
    decreases x
  {
    if x != [] {
      ValueOfDigit(x[0]);
      hide Value, Digit;
      DigitsDecode(x[1..], s[1..]);
      assert s == [s[0]] + s[1..] && x == [x[0]] + x[1..];
    }
  }

  /** Decoding what was encoded gives the bytes back, for every length, and only the empty input
      encodes to the empty text. */
  lemma RoundTrip(b: seq<Byte>)
    ensures Decode(Encode(b)) == Some(b)
    ensures Encode(b) == "" <==> b == []
  {
    DigitsDecode(Sextets(b), Encode(b));
    BytesOfSextets(b);
  }
}
