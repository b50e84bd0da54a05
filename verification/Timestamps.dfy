/** time.Time as JSON: RFC 3339 with the fraction's trailing zeros dropped, in the value's own zone.
    Instants are nanoseconds since 0000-01-01T00:00:00Z; zones are seconds east of UTC, and the
    text carries their whole minutes only. */
module Timestamps {
  import opened Wrappers
  import opened Text

  const NS_PER_SECOND := 1_000_000_000
  const NS_PER_MINUTE := 60 * NS_PER_SECOND
  const NS_PER_DAY := 86_400 * NS_PER_SECOND

  // ----- calendar -----

  predicate IsLeap(y: nat) { y % 4 == 0 && (y % 100 != 0 || y % 400 == 0) }

  function DaysInYear(y: nat): nat { if IsLeap(y) then 366 else 365 }

  function DaysBeforeYear(y: nat): nat {
    if y == 0 then 0 else DaysBeforeYear(y - 1) + DaysInYear(y - 1)
  }

  const CUMULATIVE: seq<nat> := [0, 31, 59, 90, 120, 151, 181, 212, 243, 273, 304, 334, 365]

  /** Days before month m of a year, for m from 1 to 13. */
  function DaysBeforeMonth(leap: bool, m: nat): nat
    requires 1 <= m <= 13
  {
    CUMULATIVE[m - 1] + (if leap && m > 2 then 1 else 0)
  }

  function DaysInMonth(y: nat, m: nat): nat
    requires 1 <= m <= 12
  {
    DaysBeforeMonth(IsLeap(y), m + 1) - DaysBeforeMonth(IsLeap(y), m)
  }

  /** The Gregorian calendar: a leap day every fourth year, but for centuries not divisible by 400. */
  lemma {:induction false} DaysBeforeYearMeaning(y: nat)
    ensures DaysBeforeYear(y) == 365 * y + (y + 3) / 4 - (y + 99) / 100 + (y + 399) / 400
  {
    if y > 0 {
      DaysBeforeYearMeaning(y - 1);
      LeapStep(y - 1);
      hide DaysInYear, IsLeap;
      assert DaysBeforeYear(y) == DaysBeforeYear(y - 1) + DaysInYear(y - 1);
    }
  }

  lemma LeapStep(y: nat)
    ensures (y + 4) / 4 - (y + 100) / 100 + (y + 400) / 400
         == (y + 3) / 4 - (y + 99) / 100 + (y + 399) / 400 + DaysInYear(y) - 365
  {
    assert (y + 4) / 4 == (y + 3) / 4 + if y % 4 == 0 then 1 else 0;
    assert (y + 100) / 100 == (y + 99) / 100 + if y % 100 == 0 then 1 else 0;
    assert (y + 400) / 400 == (y + 399) / 400 + if y % 400 == 0 then 1 else 0;
  }

  /** Thirty days hath September. */
  lemma DaysInMonthMeaning(y: nat, m: nat)
    requires 1 <= m <= 12
    ensures DaysInMonth(y, m) ==
      if m == 2 then (if (y % 4 == 0 && y % 100 != 0) || y % 400 == 0 then 29 else 28)
      else if m in {4, 6, 9, 11} then 30 else 31
  {
  }

  datatype Civil = Civil(year: nat, month: nat, day: nat, hour: nat, minute: nat, second: nat, nano: nat)

  predicate ValidCivil(c: Civil) {
    && c.year <= 9999 && 1 <= c.month <= 12 && 1 <= c.day <= DaysInMonth(c.year, c.month)
    && c.hour < 24 && c.minute < 60 && c.second < 60 && c.nano < NS_PER_SECOND
  }

  /** The clock reading as nanoseconds since the epoch of its zone. */
  function FromCivil(c: Civil): int
    requires 1 <= c.month <= 12
  {
    (DaysBeforeYear(c.year) + DaysBeforeMonth(IsLeap(c.year), c.month) + c.day - 1) * NS_PER_DAY
    + (c.hour * 3600 + c.minute * 60 + c.second) * NS_PER_SECOND + c.nano
  }

  /** The year, from y on, that the day falls in. */
  function YearFrom(day: nat, y: nat): nat
    requires DaysBeforeYear(y) <= day
    decreases day - DaysBeforeYear(y)
  {
    if day < DaysBeforeYear(y + 1) then y else YearFrom(day, y + 1)
  }

  lemma {:induction false} DaysBeforeMonotone(y: nat, z: nat)
    requires y <= z
    ensures DaysBeforeYear(y) <= DaysBeforeYear(z)
    decreases z - y
  {
    if y < z { DaysBeforeMonotone(y, z - 1); }
  }

  lemma {:induction false} YearFromMeaning(day: nat, y: nat)
    requires DaysBeforeYear(y) <= day
    ensures var r := YearFrom(day, y); DaysBeforeYear(r) <= day < DaysBeforeYear(r) + DaysInYear(r)
    decreases day - DaysBeforeYear(y)
  {
    if day >= DaysBeforeYear(y + 1) { YearFromMeaning(day, y + 1); }
  }

  function MonthFrom(leap: bool, day: nat, m: nat): nat
    requires 1 <= m <= 12 && DaysBeforeMonth(leap, m) <= day < DaysBeforeMonth(leap, 13)
    ensures var r := MonthFrom(leap, day, m);
      1 <= r <= 12 && DaysBeforeMonth(leap, r) <= day < DaysBeforeMonth(leap, r + 1)
    decreases 13 - m
  {
    if m == 12 || day < DaysBeforeMonth(leap, m + 1) then m else MonthFrom(leap, day, m + 1)
  }

  /** The clock reading at a non-negative local time. */
  function ToCivil(local: nat): Civil {
    var day, rest := local / NS_PER_DAY, local % NS_PER_DAY;
    var y := YearFrom(day, 0);
    YearFromMeaning(day, 0);
    var ofYear := day - DaysBeforeYear(y);
    var m := MonthFrom(IsLeap(y), ofYear, 1);
    var s := rest / NS_PER_SECOND;
    Civil(y, m, ofYear - DaysBeforeMonth(IsLeap(y), m) + 1, s / 3600, s / 60 % 60, s % 60, rest % NS_PER_SECOND)
  }

  lemma ClockSplits(s: nat)
    ensures s / 3600 * 3600 + s / 60 % 60 * 60 + s % 60 == s
    ensures s < 86_400 ==> s / 3600 < 24
  {
    assert s / 60 / 60 == s / 3600;
  }

  /** The calendar loses nothing. */
  lemma CivilRoundTrip(local: nat)
    ensures var c := ToCivil(local);
      && 1 <= c.month <= 12 && FromCivil(c) == local
      && (c.year <= 9999 ==> ValidCivil(c))
  {
    assert DaysBeforeYear(0) == 0;
    hide YearFrom, MonthFrom, DaysBeforeYear, DaysBeforeMonth;
    var day, rest := local / NS_PER_DAY, local % NS_PER_DAY;
    YearFromMeaning(day, 0);
    var s := rest / NS_PER_SECOND;
    var c := ToCivil(local);
    assert DaysBeforeYear(c.year) + DaysBeforeMonth(IsLeap(c.year), c.month) + c.day - 1 == day;
    ClockSplits(s);
    assert c.hour == s / 3600 && c.minute == s / 60 % 60 && c.second == s % 60 && c.nano == rest % NS_PER_SECOND;
    assert s < 86_400;
    hide ToCivil, IsLeap;
    assert day * NS_PER_DAY + s * NS_PER_SECOND + c.nano == local;
  }

  // ----- digits -----

  predicate IsDigit(ch: char) { '0' <= ch <= '9' }

  function DigitValue(ch: char): nat
    requires IsDigit(ch)
  {
    ch as nat - 48
  }

  function Two(n: nat): string
    requires n < 100
  {
    [Digit(n / 10), Digit(n % 10)]
  }

  /** Two digits at position i, within a range. */
  function ReadTwo(s: string, i: nat, lo: nat, hi: nat): Option<nat> {
    if i + 2 <= |s| && IsDigit(s[i]) && IsDigit(s[i + 1]) then
      var n := 10 * DigitValue(s[i]) + DigitValue(s[i + 1]);
      if lo <= n <= hi then Some(n) else None
    else None
  }

  lemma ReadTwoPrinted(s: string, i: nat, n: nat, lo: nat, hi: nat)
    requires n < 100 && i + 2 <= |s| && s[i] == Two(n)[0] && s[i + 1] == Two(n)[1] && lo <= n <= hi
    ensures ReadTwo(s, i, lo, hi) == Some(n)
  {
  }

  // ----- fraction -----

  /** The i-th of the nine fraction digits. */
  function NanoDigit(nano: nat, i: nat): nat
    requires nano < NS_PER_SECOND && i < 9
    ensures NanoDigit(nano, i) < 10
  {
    match i
    case 0 => nano / 1_0000_0000
    case 1 => nano / 1000_0000 % 10
    case 2 => nano / 100_0000 % 10
    case 3 => nano / 10_0000 % 10
    case 4 => nano / 1_0000 % 10
    case 5 => nano / 1000 % 10
    case 6 => nano / 100 % 10
    case 7 => nano / 10 % 10
    case 8 => nano % 10
  }

  /** How many of the first n digits are left once trailing zeros are dropped. */
  function Significant(nano: nat, n: nat): nat
    requires nano < NS_PER_SECOND && n <= 9
    ensures Significant(nano, n) <= n
    ensures forall i :: Significant(nano, n) <= i < n ==> NanoDigit(nano, i) == 0
  {
    if n > 0 && NanoDigit(nano, n - 1) == 0 then Significant(nano, n - 1) else n
  }

  function FractionDigits(nano: nat): string
    requires nano < NS_PER_SECOND
  {
    seq(Significant(nano, 9), i requires 0 <= i < Significant(nano, 9) => Digit(NanoDigit(nano, i)))
  }

  function Fraction(nano: nat): string
    requires nano < NS_PER_SECOND
  {
    if nano == 0 then "" else "." + FractionDigits(nano)
  }

  /** The digit at i, zero when there is none; digits past the ninth are ignored. */
  function DigitOrZero(digits: string, i: nat): nat {
    if i < |digits| && IsDigit(digits[i]) then DigitValue(digits[i]) else 0
  }

  function ReadNanos(digits: string): nat {
    DigitOrZero(digits, 0) * 1_0000_0000 + DigitOrZero(digits, 1) * 1000_0000 + DigitOrZero(digits, 2) * 100_0000
    + DigitOrZero(digits, 3) * 10_0000 + DigitOrZero(digits, 4) * 1_0000 + DigitOrZero(digits, 5) * 1000
    + DigitOrZero(digits, 6) * 100 + DigitOrZero(digits, 7) * 10 + DigitOrZero(digits, 8)
  }

  lemma NanoSplits(nano: nat)
    requires nano < NS_PER_SECOND
    ensures nano == NanoDigit(nano, 0) * 1_0000_0000 + NanoDigit(nano, 1) * 1000_0000 + NanoDigit(nano, 2) * 100_0000
      + NanoDigit(nano, 3) * 10_0000 + NanoDigit(nano, 4) * 1_0000 + NanoDigit(nano, 5) * 1000
      + NanoDigit(nano, 6) * 100 + NanoDigit(nano, 7) * 10 + NanoDigit(nano, 8)
  {
    assert nano / 1000_0000 / 10 == nano / 1_0000_0000;
    assert nano / 100_0000 / 10 == nano / 1000_0000;
    assert nano / 10_0000 / 10 == nano / 100_0000;
    assert nano / 1_0000 / 10 == nano / 10_0000;
    assert nano / 1000 / 10 == nano / 1_0000;
    assert nano / 100 / 10 == nano / 1000;
    assert nano / 10 / 10 == nano / 100;
  }

  lemma ReadNanosPrinted(nano: nat)
    requires nano < NS_PER_SECOND
    ensures ReadNanos(FractionDigits(nano)) == nano
    ensures nano != 0 ==> FractionDigits(nano) != ""
    ensures forall i :: 0 <= i < |FractionDigits(nano)| ==> IsDigit(FractionDigits(nano)[i])
  {
    var s := FractionDigits(nano);
    forall i: nat | i < 9 ensures DigitOrZero(s, i) == NanoDigit(nano, i) {
      if i < |s| { assert s[i] == Digit(NanoDigit(nano, i)); }
    }
    NanoSplits(nano);
    hide NanoDigit, DigitOrZero, Significant, FractionDigits;
  }

  // ----- RFC 3339 -----

  /** An offset the text can carry: its hours have two digits and are under 24. */
  predicate IsZone(zone: int) { -86_400 < zone < 86_400 }

  /** The offset's whole minutes, rounded towards zero. */
  function Minutes(zone: int): int {
    if zone < 0 then -(-zone / 60) else zone / 60
  }

  /** What the text loses of the offset, in nanoseconds. */
  function Drift(zone: int): int { zone * NS_PER_SECOND - Minutes(zone) * NS_PER_MINUTE }

  function ZoneText(zone: int): string
    requires IsZone(zone)
  {
    if zone == 0 then "Z"
    else
      var m := Minutes(zone);
      var z := if m < 0 then -m else m;
      [if m < 0 then '-' else '+'] + Two(z / 60) + ":" + Two(z % 60)
  }

  function ReadZone(s: string): Option<int> {
    if s == "Z" then Some(0)
    else if |s| == 6 && (s[0] == '+' || s[0] == '-') && s[3] == ':' then
      match (ReadTwo(s, 1, 0, 23), ReadTwo(s, 4, 0, 59))
      case (Some(h), Some(m)) =>
        var minutes: int := 60 * h + m;
        Some(if s[0] == '-' then -minutes else minutes)
      case _ => None
    else None
  }

  lemma ReadZonePrinted(zone: int)
    requires IsZone(zone)
    ensures ReadZone(ZoneText(zone)) == Some(Minutes(zone))
    ensures ZoneText(zone) != "" && !IsDigit(ZoneText(zone)[0]) && ZoneText(zone)[0] != '.'
  {
    if zone != 0 {
      var s, m := ZoneText(zone), Minutes(zone);
      var z := if m < 0 then -m else m;
      assert z < 1440;
      ReadTwoPrinted(s, 1, z / 60, 0, 23);
      ReadTwoPrinted(s, 4, z % 60, 0, 59);
    }
  }

  /** Nothing is lost exactly when the offset is whole minutes, and never as much as a minute. */
  lemma DriftMeaning(zone: int)
    ensures Drift(zone) == 0 <==> zone % 60 == 0
    ensures -NS_PER_MINUTE < Drift(zone) < NS_PER_MINUTE && Drift(zone) % NS_PER_SECOND == 0
  {
    var rest := zone - 60 * Minutes(zone);
    assert -60 < rest < 60;
    assert Drift(zone) == rest * NS_PER_SECOND;
  }

  const CLOCK_LENGTH := 19

  /** YYYY-MM-DDTHH:MM:SS. */
  function ClockText(c: Civil): (s: string)
    requires ValidCivil(c)
    ensures |s| == CLOCK_LENGTH
  {
    var cc, yy, mo, dd := Two(c.year / 100), Two(c.year % 100), Two(c.month), Two(c.day);
    var hh, mi, ss := Two(c.hour), Two(c.minute), Two(c.second);
    [cc[0], cc[1], yy[0], yy[1], '-', mo[0], mo[1], '-', dd[0], dd[1], 'T',
     hh[0], hh[1], ':', mi[0], mi[1], ':', ss[0], ss[1]]
  }

  function ReadClock(s: string): Option<Civil> {
    if |s| == CLOCK_LENGTH && s[4] == '-' && s[7] == '-' && s[10] == 'T' && s[13] == ':' && s[16] == ':' then
      match (ReadTwo(s, 0, 0, 99), ReadTwo(s, 2, 0, 99), ReadTwo(s, 5, 1, 12), ReadTwo(s, 11, 0, 23),
             ReadTwo(s, 14, 0, 59), ReadTwo(s, 17, 0, 59))
      case (Some(cc), Some(yy), Some(month), Some(hour), Some(minute), Some(second)) =>
        (match ReadTwo(s, 8, 1, DaysInMonth(100 * cc + yy, month))
         case Some(day) => Some(Civil(100 * cc + yy, month, day, hour, minute, second, 0))
         case None => None)
      case _ => None
    else None
  }

  lemma MonthIsShort(y: nat, m: nat)
    requires 1 <= m <= 12
    ensures DaysInMonth(y, m) <= 31
  {
  }

  lemma ReadClockPrinted(c: Civil)
    requires ValidCivil(c)
    ensures ReadClock(ClockText(c)) == Some(c.(nano := 0))
  {
    hide ReadTwo, Two, DaysInMonth, DaysBeforeMonth;
    assert c.day < 100 by { MonthIsShort(c.year, c.month); }
    var s := ClockText(c);
    ReadTwoPrinted(s, 0, c.year / 100, 0, 99);
    ReadTwoPrinted(s, 2, c.year % 100, 0, 99);
    ReadTwoPrinted(s, 5, c.month, 1, 12);
    ReadTwoPrinted(s, 8, c.day, 1, DaysInMonth(c.year, c.month));
    ReadTwoPrinted(s, 11, c.hour, 0, 23);
    ReadTwoPrinted(s, 14, c.minute, 0, 59);
    ReadTwoPrinted(s, 17, c.second, 0, 59);
    assert 100 * (c.year / 100) + c.year % 100 == c.year;
  }

  /** A clock text is read only if it names a real date and time. */
  lemma ReadClockIsValid(s: string)
    ensures ReadClock(s).Some? ==> ValidCivil(ReadClock(s).value)
  {
  }

  /** The layout: year, month and day, then the time of day, the fraction and the offset. */
  lemma LayoutExamples()
    ensures ClockText(Civil(2024, 2, 9, 13, 4, 56, 0)) == "2024-02-09T13:04:56"
    ensures Fraction(120_000_000) == ".12" && Fraction(0) == ""
    ensures ZoneText(0) == "Z" && ZoneText(19800) == "+05:30" && ZoneText(-12600) == "-03:30"
  {
    assert Significant(120_000_000, 9) == 2;
    assert FractionDigits(120_000_000) == "12";
  }

  function DigitRun(s: string): nat {
    if s != [] && IsDigit(s[0]) then 1 + DigitRun(s[1..]) else 0
  }

  lemma {:induction false} DigitRunBound(s: string)
    ensures DigitRun(s) <= |s|
  {
    if s != [] && IsDigit(s[0]) { DigitRunBound(s[1..]); }
  }

  lemma {:induction false} DigitRunStops(digits: string, rest: string)
    requires (forall i :: 0 <= i < |digits| ==> IsDigit(digits[i])) && rest != "" && !IsDigit(rest[0])
    ensures DigitRun(digits + rest) == |digits|
  {
    if digits == [] {
      assert digits + rest == rest;
    } else {
      assert (digits + rest)[1..] == digits[1..] + rest;
      DigitRunStops(digits[1..], rest);
    }
  }

  /** The fraction's digits and what follows them. */
  function SplitFraction(s: string): (string, string) {
    if |s| >= 2 && s[0] == '.' && IsDigit(s[1]) then
      var n := DigitRun(s[1..]);
      DigitRunBound(s[1..]);
      (s[1..][..n], s[1..][n..])
    else ("", s)
  }

  /** The instant an RFC 3339 text names. */
  function Read(s: string): Option<int> {
    if |s| <= CLOCK_LENGTH then None
    else
      var (digits, rest) := SplitFraction(s[CLOCK_LENGTH..]);
      match (ReadClock(s[..CLOCK_LENGTH]), ReadZone(rest))
      case (Some(c), Some(zone)) => Some(FromCivil(c) + ReadNanos(digits) - zone * NS_PER_MINUTE)
      case _ => None
  }

  /** The local reading has a four-digit year, as RFC 3339 requires. */
  predicate InYears(instant: int, zone: int) {
    var local := instant + zone * NS_PER_SECOND;
    local >= 0 && ToCivil(local).year <= 9999
  }

  /** The text has a four-digit year and a two-digit zone hour under 24. */
  predicate Marshals(instant: int, zone: int) { IsZone(zone) && InYears(instant, zone) }

  /** The years 0 to 9999 have 3652425 days. */
  lemma FourDigitYears(day: nat)
    ensures DaysBeforeYear(0) <= day && (YearFrom(day, 0) <= 9999 <==> day < 3_652_425)
  {
    assert DaysBeforeYear(0) == 0;
    YearFromMeaning(day, 0);
    var y := YearFrom(day, 0);
    DaysBeforeYearMeaning(10000);
    assert DaysBeforeYear(y + 1) == DaysBeforeYear(y) + DaysInYear(y);
    hide DaysBeforeYear, YearFrom;
    if y < 10000 { DaysBeforeMonotone(y + 1, 10000); } else { DaysBeforeMonotone(10000, y); }
  }

  lemma YearAt(local: nat)
    ensures ToCivil(local).year <= 9999 <==> local < 3_652_425 * NS_PER_DAY
  {
    var day := local / NS_PER_DAY;
    FourDigitYears(day);
    assert ToCivil(local).year == YearFrom(day, 0);
    hide ToCivil, YearFrom, DaysBeforeYear;
    assert day * NS_PER_DAY <= local < (day + 1) * NS_PER_DAY;
  }

  /** An instant marshals exactly when its offset is under a day and its local reading lies in the years 0 to
      9999. */
  lemma MarshalsMeaning(instant: int, zone: int)
    ensures Marshals(instant, zone) <==>
      -86_400 < zone < 86_400 && 0 <= instant + zone * 1_000_000_000 < 3_652_425 * 86_400 * 1_000_000_000
  {
    hide ToCivil;
    if instant + zone * NS_PER_SECOND >= 0 { YearAt(instant + zone * NS_PER_SECOND); }
  }

  /** MarshalJSON's text; any other instant or zone does not marshal. */
  function Print(instant: int, zone: int): Option<string> {
    if Marshals(instant, zone) then
      var c := ToCivil(instant + zone * NS_PER_SECOND);
      CivilRoundTrip(instant + zone * NS_PER_SECOND);
      Some(ClockText(c) + Fraction(c.nano) + ZoneText(zone))
    else None
  }

  lemma SplitFractionPrinted(nano: nat, zoneText: string)
    requires nano < NS_PER_SECOND && zoneText != "" && !IsDigit(zoneText[0]) && zoneText[0] != '.'
    ensures SplitFraction(Fraction(nano) + zoneText) == (if nano == 0 then "" else FractionDigits(nano), zoneText)
  {
    hide FractionDigits, DigitRun, ReadNanos;
    var digits := FractionDigits(nano);
    ReadNanosPrinted(nano);
    if nano == 0 {
      assert Fraction(nano) + zoneText == zoneText;
    } else {
      DigitRunStops(digits, zoneText);
      var s := Fraction(nano) + zoneText;
      assert s[1..] == digits + zoneText && s[1] == digits[0];
      assert (digits + zoneText)[..|digits|] == digits && (digits + zoneText)[|digits|..] == zoneText;
    }
  }

  lemma ReadParts(clock: string, tail: string)
    requires |clock| == CLOCK_LENGTH && tail != ""
    ensures Read(clock + tail) ==
      var (digits, rest) := SplitFraction(tail);
      match (ReadClock(clock), ReadZone(rest))
      case (Some(c), Some(zone)) => Some(FromCivil(c) + ReadNanos(digits) - zone * NS_PER_MINUTE)
      case _ => None
  {
    assert (clock + tail)[..CLOCK_LENGTH] == clock && (clock + tail)[CLOCK_LENGTH..] == tail;
    hide SplitFraction, ReadClock, ReadZone, FromCivil, ReadNanos;
  }

  lemma LocalParts(local: nat)
    requires ToCivil(local).year <= 9999
    ensures var c := ToCivil(local);
      && ValidCivil(c)
      && FromCivil(c.(nano := 0)) + ReadNanos(if c.nano == 0 then "" else FractionDigits(c.nano)) == local
  {
    var c := ToCivil(local);
    CivilRoundTrip(local);
    ReadNanosPrinted(c.nano);
    assert ReadNanos("") == 0;
    assert FromCivil(c.(nano := 0)) + c.nano == local;
    hide ToCivil, FromCivil, FractionDigits, ReadNanos;
  }

  /** What is printed names the same instant, in any zone of whole minutes; the seconds of any other are
      lost. */
  lemma ReadPrinted(instant: int, zone: int)
    requires Marshals(instant, zone)
    ensures Read(Print(instant, zone).value) == Some(instant + Drift(zone))
    ensures Drift(zone) == 0 <==> zone % 60 == 0
  {
    DriftMeaning(zone);
    hide ToCivil, FromCivil, ClockText, ReadClock, ZoneText, ReadZone, Fraction, FractionDigits, ReadNanos, SplitFraction,
      ValidCivil, IsZone, Read, Minutes;
    var local := instant + zone * NS_PER_SECOND;
    var c := ToCivil(local);
    LocalParts(local);
    ReadClockPrinted(c);
    ReadZonePrinted(zone);
    assert c.nano < NS_PER_SECOND by { CivilRoundTrip(local); NanoInRange(c); }
    SplitFractionPrinted(c.nano, ZoneText(zone));
    var clock, tail := ClockText(c), Fraction(c.nano) + ZoneText(zone);
    assert Print(instant, zone).value == clock + tail;
    ReadParts(clock, tail);
  }

  lemma NanoInRange(c: Civil)
    requires ValidCivil(c)
    ensures c.nano < NS_PER_SECOND
  {
  }

  // ----- characters -----

  /** ASCII that JSON writes as is. */
  predicate IsPlain(ch: char) {
    ' ' <= ch <= '~' && ch != '"' && ch != '\\' && ch != '<' && ch != '>' && ch != '&'
  }

  predicate AllPlain(s: string) {
    forall i :: 0 <= i < |s| ==> IsPlain(s[i])
  }

  lemma PlainConcat(a: string, b: string)
    requires AllPlain(a) && AllPlain(b)
    ensures AllPlain(a + b)
  {
  }

  lemma ClockIsPlain(c: Civil)
    requires ValidCivil(c)
    ensures AllPlain(ClockText(c))
  {
  }

  lemma FractionIsPlain(nano: nat)
    requires nano < NS_PER_SECOND
    ensures AllPlain(Fraction(nano))
  {
    ReadNanosPrinted(nano);
    hide FractionDigits, ReadNanos;
  }

  lemma PrintIsPlain(instant: int, zone: int)
    requires Marshals(instant, zone)
    ensures AllPlain(Print(instant, zone).value)
  {
    hide ToCivil, ClockText, Fraction, ValidCivil;
    var c := ToCivil(instant + zone * NS_PER_SECOND);
    CivilRoundTrip(instant + zone * NS_PER_SECOND);
    NanoInRange(c);
    ClockIsPlain(c);
    FractionIsPlain(c.nano);
    assert AllPlain(ZoneText(zone));
    hide ZoneText, AllPlain;
    PlainConcat(ClockText(c), Fraction(c.nano));
    PlainConcat(ClockText(c) + Fraction(c.nano), ZoneText(zone));
  }
}
