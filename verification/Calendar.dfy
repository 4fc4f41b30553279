/**
 Gregorian calendar arithmetic on YYYY-MM-DD strings, as Date.UTC and the UTC
 accessors perform it (section 21.4.1 of ECMA-262).
 */
module Calendar {
  import opened Options

  datatype Civil = Civil(year: int, month: int, day: int)

  predicate Leap(y: int) {
    (y % 4 == 0 && y % 100 != 0) || y % 400 == 0
  }

  function DaysInMonth(y: int, m: int): int {
    if m == 2 then (if Leap(y) then 29 else 28)
    else if m == 4 || m == 6 || m == 9 || m == 11 then 30
    else 31
  }

  predicate ValidCivil(c: Civil) {
    1 <= c.month <= 12 && 1 <= c.day <= DaysInMonth(c.year, c.month)
  }

  /** DayFromYear of ECMA-262: the day number of January 1st. */
  function DayFromYear(y: int): int {
    365 * (y - 1970) + (y - 1969) / 4 - (y - 1901) / 100 + (y - 1601) / 400
  }

  function DaysBeforeMonth(y: int, m: int): int
    requires 1 <= m <= 13
  {
    if m == 1 then 0 else DaysBeforeMonth(y, m - 1) + DaysInMonth(y, m - 1)
  }

  /** MakeDay of ECMA-262 for a month in range; the day may lie outside the month. */
  function DayNumber(c: Civil): int
    requires 1 <= c.month <= 12
  {
    DayFromYear(c.year) + DaysBeforeMonth(c.year, c.month) + c.day - 1
  }

  lemma YearLength(y: int)
    ensures DayFromYear(y + 1) - DayFromYear(y) == 365 + if Leap(y) then 1 else 0
    ensures DaysBeforeMonth(y, 13) == DayFromYear(y + 1) - DayFromYear(y)
  {
    MonthTable(y);
    LeapSteps(y);
    hide DaysBeforeMonth, Leap;
  }

  /** Which of the three leap rules a year adds to the count. */
  lemma LeapSteps(y: int)
    ensures (y - 1968) / 4 - (y - 1969) / 4 - (y - 1900) / 100 + (y - 1901) / 100 + (y - 1600) / 400 - (y - 1601) / 400
         == if Leap(y) then 1 else 0
  {
    EveryFour(y);
    EveryHundred(y);
    EveryFourHundred(y);
    Multiples(y);
  }

  lemma Multiples(y: int)
    ensures y % 400 == 0 ==> y % 100 == 0
    ensures y % 100 == 0 ==> y % 4 == 0
  {
  }

  lemma EveryFour(y: int)
    ensures (y - 1968) / 4 - (y - 1969) / 4 == if y % 4 == 0 then 1 else 0
  {
  }

  lemma EveryHundred(y: int)
    ensures (y - 1900) / 100 - (y - 1901) / 100 == if y % 100 == 0 then 1 else 0
  {
  }

  lemma EveryFourHundred(y: int)
    ensures (y - 1600) / 400 - (y - 1601) / 400 == if y % 400 == 0 then 1 else 0
  {
  }

  lemma MonthTable(y: int)
    ensures DaysBeforeMonth(y, 13) == 365 + if Leap(y) then 1 else 0
  {
    hide Leap;
    assert DaysBeforeMonth(y, 2) == 31;
    assert DaysBeforeMonth(y, 3) == 59 + if Leap(y) then 1 else 0;
    assert DaysBeforeMonth(y, 5) == 120 + if Leap(y) then 1 else 0;
    assert DaysBeforeMonth(y, 7) == 181 + if Leap(y) then 1 else 0;
    assert DaysBeforeMonth(y, 9) == 243 + if Leap(y) then 1 else 0;
    assert DaysBeforeMonth(y, 11) == 304 + if Leap(y) then 1 else 0;
  }

  lemma {:induction false} YearsApart(y: int, z: int)
    requires y <= z
    ensures DayFromYear(z) - DayFromYear(y) >= 365 * (z - y)
    decreases z - y
  {
    if y < z {
      YearLength(y);
      YearsApart(y + 1, z);
    }
  }

  lemma {:induction false} MonthsApart(y: int, m: int, n: int)
    requires 1 <= m < n <= 13
    ensures DaysBeforeMonth(y, n) >= DaysBeforeMonth(y, m) + DaysInMonth(y, m)
    decreases n - m
  {
    if m + 1 < n { MonthsApart(y, m, n - 1); }
  }

  lemma YearsGrow(y: int)
    ensures DayFromYear(y - 1) < DayFromYear(y) < DayFromYear(y + 1) < DayFromYear(y + 2)
    ensures DayFromYear(y - 1 + 1) == DayFromYear(y) && DayFromYear(y + 1 + 1) == DayFromYear(y + 2)
  {
    YearLength(y);
    YearLength(y - 1);
    YearLength(y + 1);
    hide DayFromYear;
    assert y - 1 + 1 == y && y + 1 + 1 == y + 2;
  }

  /** YearFromTime: the year whose days include the given one. */
  function YearOf(day: int, guess: int): (y: int)
    ensures DayFromYear(y) <= day < DayFromYear(y + 1)
    decreases if day < DayFromYear(guess) then DayFromYear(guess) - day
              else if day >= DayFromYear(guess + 1) then day - DayFromYear(guess + 1) + 1 else 0
  {
    YearsGrow(guess);
    hide DayFromYear;
    if day < DayFromYear(guess) then YearOf(day, guess - 1)
    else if day >= DayFromYear(guess + 1) then YearOf(day, guess + 1)
    else guess
  }

  function MonthOf(y: int, dayInYear: int, m: int): (r: int)
    requires 1 <= m <= 12 && DaysBeforeMonth(y, m) <= dayInYear < DaysBeforeMonth(y, 13)
    ensures m <= r <= 12 && DaysBeforeMonth(y, r) <= dayInYear < DaysBeforeMonth(y, r + 1)
    decreases 12 - m
  {
    if dayInYear < DaysBeforeMonth(y, m + 1) then m else MonthOf(y, dayInYear, m + 1)
  }

  /** The UTC accessors: year, month and day of a day number. */
  function FromDayNumber(n: int): Civil {
    var y := YearOf(n, 1970);
    YearLength(y);
    var inYear := n - DayFromYear(y);
    var m := MonthOf(y, inYear, 1);
    Civil(y, m, inYear - DaysBeforeMonth(y, m) + 1)
  }

  /** The accessors invert MakeDay. */
  lemma FromDayNumberIsInverse(n: int)
    ensures ValidCivil(FromDayNumber(n)) && DayNumber(FromDayNumber(n)) == n
  {
    var y := YearOf(n, 1970);
    YearLength(y);
    var m := MonthOf(y, n - DayFromYear(y), 1);
    assert DaysBeforeMonth(y, m + 1) == DaysBeforeMonth(y, m) + DaysInMonth(y, m);
  }

  predicate Before(a: Civil, b: Civil) {
    a.year < b.year || (a.year == b.year && (a.month < b.month || (a.month == b.month && a.day < b.day)))
  }

  lemma EarlierYear(a: Civil, b: Civil)
    requires ValidCivil(a) && ValidCivil(b) && a.year < b.year
    ensures DayNumber(a) < DayNumber(b)
  {
    YearLength(a.year);
    YearsApart(a.year + 1, b.year);
    MonthsApart(a.year, a.month, 13);
    if b.month > 1 { MonthsApart(b.year, 1, b.month); }
  }

  /** Chronological order is the order of (year, month, day). */
  lemma DayNumberIsMonotone(a: Civil, b: Civil)
    requires ValidCivil(a) && ValidCivil(b)
    ensures DayNumber(a) < DayNumber(b) <==> Before(a, b)
    ensures DayNumber(a) == DayNumber(b) <==> a == b
  {
    if a.year < b.year { EarlierYear(a, b); }
    else if b.year < a.year { EarlierYear(b, a); }
    else if a.month < b.month { MonthsApart(a.year, a.month, b.month); }
    else if b.month < a.month { MonthsApart(a.year, b.month, a.month); }
  }

  // ---- Strings ----

  predicate IsDigit(c: char) { '0' <= c <= '9' }

  function Digit(c: char): int { c as int - '0' as int }

  function DigitChar(d: int): char
    requires 0 <= d <= 9
  {
    (d + '0' as int) as char
  }

  /** Number.parseInt of a digit string. */
  function Value(s: string): int {
    if s == "" then 0 else 10 * Value(s[..|s| - 1]) + Digit(s[|s| - 1])
  }

  predicate Digits(s: string) {
    forall i | 0 <= i < |s| :: IsDigit(s[i])
  }

  predicate HasDateShape(s: string) {
    && |s| == 10 && Digits(s[..4]) && s[4] == '-' && Digits(s[5..7]) && s[7] == '-' && Digits(s[8..])
  }

  function Parts(s: string): Civil
    requires HasDateShape(s)
  {
    Civil(Value(s[..4]), Value(s[5..7]), Value(s[8..]))
  }

  predicate IsValidDateString(s: string) {
    HasDateShape(s) && ValidCivil(Parts(s))
  }

  function Decimal(n: nat): string {
    if n < 10 then [DigitChar(n)] else Decimal(n / 10) + [DigitChar(n % 10)]
  }

  function ToString(n: int): string {
    if n < 0 then "-" + Decimal(-n) else Decimal(n)
  }

  function PadStart(s: string, width: nat): string
    decreases width - |s|
  {
    if |s| >= width then s else PadStart("0" + s, width)
  }

  function FormatDateParts(c: Civil): string {
    PadStart(ToString(c.year), 4) + "-" + PadStart(ToString(c.month), 2) + "-" + PadStart(ToString(c.day), 2)
  }

  lemma {:induction false} ValueOfPadded(s: string, width: nat)
    requires Digits(s) && |s| <= width
    ensures Digits(PadStart(s, width)) && |PadStart(s, width)| == width && Value(PadStart(s, width)) == Value(s)
    decreases width - |s|
  {
    if |s| < width {
      LeadingZero(s);
      ValueOfPadded("0" + s, width);
    }
  }

  lemma {:induction false} LeadingZero(s: string)
    requires Digits(s)
    ensures Value("0" + s) == Value(s)
  {
    if s == "" {
      assert Value("0") == 10 * Value("0"[..0]) + 0;
    } else {
      assert ("0" + s)[..|"0" + s| - 1] == "0" + s[..|s| - 1];
      LeadingZero(s[..|s| - 1]);
    }
  }

  lemma {:induction false} DecimalValue(n: nat, width: nat, bound: nat)
    requires n < bound && 1 <= width && (width == 1 ==> bound <= 10)
    requires width > 1 ==> bound <= Power10(width)
    ensures Digits(Decimal(n)) && Value(Decimal(n)) == n && |Decimal(n)| <= width
    decreases n
  {
    if n >= 10 {
      assert n / 10 < Power10(width - 1);
      DecimalValue(n / 10, width - 1, Power10(width - 1));
      assert Decimal(n)[..|Decimal(n)| - 1] == Decimal(n / 10);
    } else {
      assert Decimal(n) == [DigitChar(n)] && Decimal(n)[..0] == "";
    }
  }

  function Power10(k: nat): nat {
    if k == 0 then 1 else 10 * Power10(k - 1)
  }

  lemma Formatted(n: int, width: nat)
    requires (width == 2 && 0 <= n < 100) || (width == 4 && 0 <= n < 10000)
    ensures var s := PadStart(ToString(n), width);
            Digits(s) && |s| == width && Value(s) == n
  {
    assert Power10(2) == 100 && Power10(4) == 10000 by {
      assert Power10(1) == 10 && Power10(3) == 1000;
    }
    DecimalValue(n, width, if width == 2 then 100 else 10000);
    ValueOfPadded(ToString(n), width);
  }

  /** Formatting a date of the years 0 to 9999 and parsing it again gives the date back. */
  lemma ParseFormatted(c: Civil)
    requires ValidCivil(c) && 0 <= c.year <= 9999
    ensures IsValidDateString(FormatDateParts(c)) && Parts(FormatDateParts(c)) == c
  {
    Formatted(c.year, 4);
    Formatted(c.month, 2);
    Formatted(c.day, 2);
    var y, m, d := PadStart(ToString(c.year), 4), PadStart(ToString(c.month), 2), PadStart(ToString(c.day), 2);
    var s := FormatDateParts(c);
    hide PadStart, ToString, Value;
    assert s[..4] == y && s[5..7] == m && s[8..] == d;
  }

  // ---- String order ----

  /** JavaScript's `<` on strings. */
  predicate Less(a: string, b: string) {
    if b == "" then false else if a == "" then true
    else if a[0] == b[0] then Less(a[1..], b[1..]) else a[0] < b[0]
  }

  lemma {:induction false} LessByParts(a: string, a': string, b: string, b': string)
    requires |a| == |b|
    ensures Less(a + a', b + b') <==> Less(a, b) || (a == b && Less(a', b'))
  {
    if a == "" {
      assert a + a' == a' && b + b' == b';
    } else {
      assert (a + a')[1..] == a[1..] + a' && (b + b')[1..] == b[1..] + b';
      LessByParts(a[1..], a', b[1..], b');
      assert a == b <==> a[0] == b[0] && a[1..] == b[1..];
    }
  }

  lemma {:induction false} LessIsNumeric(a: string, b: string)
    requires |a| == |b| && Digits(a) && Digits(b)
    ensures Less(a, b) <==> Value(a) < Value(b)
    ensures a == b <==> Value(a) == Value(b)
  {
    if a != "" {
      var n := |a| - 1;
      LessIsNumeric(a[..n], b[..n]);
      LessByParts(a[..n], a[n..], b[..n], b[n..]);
      assert a == a[..n] + a[n..] && b == b[..n] + b[n..];
      assert a[n..] == [a[n]] && b[n..] == [b[n]];
      assert Less([a[n]], [b[n]]) <==> Digit(a[n]) < Digit(b[n]) by {
        hide Value;
        assert [a[n]][1..] == "" && [b[n]][1..] == "";
      }
      hide Less;
      assert IsDigit(a[n]) && IsDigit(b[n]);
    }
  }

  /** The string order of valid dates is the order of their parts. */
  lemma LessIsBefore(a: string, b: string)
    requires HasDateShape(a) && HasDateShape(b)
    ensures Less(a, b) <==> Before(Parts(a), Parts(b))
    ensures a == b <==> Parts(a) == Parts(b)
  {
    LessIsNumeric(a[..4], b[..4]);
    LessIsNumeric(a[5..7], b[5..7]);
    LessIsNumeric(a[8..], b[8..]);
    LessByParts(a[..5], a[5..], b[..5], b[5..]);
    LessByParts(a[..4], "-", b[..4], "-");
    LessByParts(a[5..8], a[8..], b[5..8], b[8..]);
    LessByParts(a[5..7], "-", b[5..7], "-");
    hide Less, Value, Digits;
    SplitDate(a);
    SplitDate(b);
    assert !Less("-", "-") by { LessIrreflexive("-"); }
  }

  lemma SplitDate(a: string)
    requires |a| == 10 && a[4] == '-' && a[7] == '-'
    ensures a == a[..5] + a[5..] && a[..5] == a[..4] + "-"
    ensures a[5..] == a[5..8] + a[8..] && a[5..8] == a[5..7] + "-"
  {
  }

  lemma {:induction false} LessIrreflexive(s: string)
    ensures !Less(s, s)
  {
    if s != "" { LessIrreflexive(s[1..]); }
  }

  // ---- The operations ----

  /** Date.UTC reads the years 0 to 99 as 1900 to 1999. */
  function UtcYear(y: int): int {
    if 0 <= y <= 99 then 1900 + y else y
  }

  /** The day number of Date.UTC for a valid date string. */
  function UtcDay(s: string): int {
    if IsValidDateString(s) then
      var c := Parts(s);
      DayNumber(Civil(UtcYear(c.year), c.month, c.day))
    else 0
  }

  function DayString(n: int): string {
    FormatDateParts(FromDayNumber(n))
  }

  /** addDays; None stands for the RangeError on an invalid date string. */
  function AddDays(s: string, days: int): Option<string> {
    if IsValidDateString(s) then Some(DayString(UtcDay(s) + days)) else None
  }

  /** differenceInDays. */
  function DifferenceInDays(from: string, to: string): Option<int> {
    if IsValidDateString(from) && IsValidDateString(to) then Some(UtcDay(to) - UtcDay(from)) else None
  }

  /** A valid date that Date.UTC does not remap. */
  predicate Regular(s: string) {
    IsValidDateString(s) && Parts(s).year >= 100
  }

  /** The day numbers of 0100-01-01 and 9999-12-31. */
  const FIRST_DAY := -683003
  const LAST_DAY := 2932896

  lemma EndsOfRange()
    ensures FIRST_DAY == DayNumber(Civil(100, 1, 1)) && LAST_DAY == DayNumber(Civil(9999, 12, 31))
  {
    YearLength(9999);
  }

  lemma {:induction false} ValueBound(s: string)
    requires Digits(s)
    ensures 0 <= Value(s) < Power10(|s|)
  {
    if s != "" {
      ValueBound(s[..|s| - 1]);
      assert IsDigit(s[|s| - 1]);
    }
  }

  lemma YearBound(s: string)
    requires HasDateShape(s)
    ensures 0 <= Parts(s).year <= 9999
  {
    ValueBound(s[..4]);
    assert Power10(4) == 10000 by { assert Power10(2) == 100 && Power10(3) == 1000; }
  }

  lemma DayStringParts(n: int)
    requires FIRST_DAY <= n <= LAST_DAY
    ensures IsValidDateString(DayString(n)) && Parts(DayString(n)) == FromDayNumber(n)
  {
    var c := FromDayNumber(n);
    FromDayNumberIsInverse(n);
    EndsOfRange();
    DayNumberIsMonotone(c, Civil(100, 1, 1));
    DayNumberIsMonotone(Civil(9999, 12, 31), c);
    ParseFormatted(c);
  }

  /** The regular dates are exactly the days from 0100-01-01 to 9999-12-31. */
  lemma DayStringIsRegular(n: int)
    requires FIRST_DAY <= n <= LAST_DAY
    ensures Regular(DayString(n)) && UtcDay(DayString(n)) == n
  {
    DayStringParts(n);
    FromDayNumberIsInverse(n);
    EndsOfRange();
    hide DayString, FromDayNumber, IsValidDateString, Parts, DayFromYear, DaysBeforeMonth;
    DayNumberIsMonotone(FromDayNumber(n), Civil(100, 1, 1));
  }

  lemma RegularParts(s: string)
    requires Regular(s)
    ensures HasDateShape(s) && IsValidDateString(s) && ValidCivil(Parts(s)) && 100 <= Parts(s).year <= 9999
    ensures UtcDay(s) == DayNumber(Parts(s))
  {
    YearBound(s);
  }

  lemma RegularDay(s: string)
    requires Regular(s)
    ensures IsValidDateString(s)
    ensures FIRST_DAY <= UtcDay(s) <= LAST_DAY && DayString(UtcDay(s)) == s
  {
    RegularParts(s);
    var c := Parts(s);
    var n := UtcDay(s);
    EndsOfRange();
    assert FIRST_DAY <= n <= LAST_DAY by {
      DayNumberIsMonotone(c, Civil(100, 1, 1));
      DayNumberIsMonotone(Civil(9999, 12, 31), c);
      hide HasDateShape, Parts, DayNumber;
    }
    assert DayString(n) == s by {
      hide *;
      DayStringParts(n);
      FromDayNumberIsInverse(n);
      DayNumberIsMonotone(c, FromDayNumber(n));
      ValidHasShape(DayString(n));
      LessIsBefore(s, DayString(n));
    }
  }

  lemma ValidHasShape(s: string)
    requires IsValidDateString(s)
    ensures HasDateShape(s)
  {
  }

  /** Adding nothing gives a valid date back exactly when its year is 100 or later. */
  lemma AddNothing(s: string)
    requires IsValidDateString(s)
    ensures AddDays(s, 0) == Some(s) <==> Parts(s).year >= 100
  {
    if Regular(s) {
      RegularDay(s);
    } else {
      YearBound(s);
      var c := Parts(s);
      var moved := Civil(UtcYear(c.year), c.month, c.day);
      var n := UtcDay(s);
      Remapped(c, n);
      DayStringParts(n);
    }
  }

  lemma Remapped(c: Civil, n: int)
    requires ValidCivil(c) && 0 <= c.year <= 99 && n == DayNumber(Civil(1900 + c.year, c.month, c.day))
    ensures FIRST_DAY <= n < 11323 && FromDayNumber(n) != c
  {
    var moved := FromDayNumber(n);
    FromDayNumberIsInverse(n);
    var y := 1900 + c.year;
    YearsApart(1900, y);
    YearsApart(y + 1, 2001);
    YearLength(y);
    MonthsApart(y, c.month, 13);
    if c.month > 1 { MonthsApart(y, 1, c.month); }
    assert DayFromYear(1900) == -25567 && DayFromYear(2001) == 11323;
    if moved == c {
      EarlierYear(c, Civil(1900, 1, 1));
    }
    hide DayNumber, DayFromYear, DaysBeforeMonth;
  }

  lemma SumIsRegular(a: string, n: int)
    requires IsValidDateString(a) && FIRST_DAY <= UtcDay(a) + n <= LAST_DAY
    ensures AddDays(a, n).Some? && Regular(AddDays(a, n).value) && IsValidDateString(AddDays(a, n).value)
    ensures UtcDay(AddDays(a, n).value) == UtcDay(a) + n && AddDays(a, n).value == DayString(UtcDay(a) + n)
  {
    hide HasDateShape, DayString, ValidCivil, UtcDay, Parts;
    DayStringIsRegular(UtcDay(a) + n);
  }

  lemma DifferenceIs(a: string, b: string)
    requires IsValidDateString(a) && IsValidDateString(b)
    ensures DifferenceInDays(a, b) == Some(UtcDay(b) - UtcDay(a))
  {
  }

  /** differenceInDays inverts addDays exactly while the sum stays between 0100-01-01 and 9999-12-31. */
  lemma DifferenceOfSum(a: string, n: int)
    requires IsValidDateString(a)
    ensures DifferenceInDays(a, AddDays(a, n).value) == Some(n) <==> FIRST_DAY <= UtcDay(a) + n <= LAST_DAY
  {
    hide *;
    SumIs(a, n);
    var b := AddDays(a, n).value;
    if FIRST_DAY <= UtcDay(a) + n <= LAST_DAY {
      SumIsRegular(a, n);
      DifferenceIs(a, b);
    } else if IsValidDateString(b) {
      UtcBounds(b);
      DifferenceIs(a, b);
    } else {
      NoDifference(a, b);
    }
  }

  lemma NoDifference(a: string, b: string)
    requires !IsValidDateString(b)
    ensures DifferenceInDays(a, b).None?
  {
    hide IsValidDateString;
  }

  /** addDays inverts differenceInDays. */
  lemma SumOfDifference(a: string, b: string)
    requires IsValidDateString(a) && Regular(b)
    ensures AddDays(a, DifferenceInDays(a, b).value) == Some(b)
  {
    hide *;
    RegularDay(b);
    DifferenceIs(a, b);
    SumIs(a, UtcDay(b) - UtcDay(a));
  }

  /** Adding in two steps is adding the sum exactly while the first sum stays between 0100-01-01 and 9999-12-31. */
  lemma SumsCompose(a: string, m: int, n: int)
    requires IsValidDateString(a)
    ensures AddDays(AddDays(a, m).value, n) == AddDays(a, m + n) <==> FIRST_DAY <= UtcDay(a) + m <= LAST_DAY
  {
    hide *;
    SumIs(a, m);
    SumIs(a, m + n);
    var b := AddDays(a, m).value;
    if FIRST_DAY <= UtcDay(a) + m <= LAST_DAY {
      SumIsRegular(a, m);
      SumIs(b, n);
    } else if IsValidDateString(b) {
      UtcBounds(b);
      SumIs(b, n);
      DayStringIsInjective(UtcDay(b) + n, UtcDay(a) + m + n);
    } else {
      NoSum(b, n);
    }
  }

  lemma NoSum(a: string, n: int)
    requires !IsValidDateString(a)
    ensures AddDays(a, n).None?
  {
    hide IsValidDateString;
  }

  // ---- Different days have different strings, in any year ----

  lemma {:induction false} DecimalIs(n: nat)
    ensures Digits(Decimal(n)) && Value(Decimal(n)) == n && |Decimal(n)| >= 1
  {
    if n >= 10 {
      DecimalIs(n / 10);
      assert Decimal(n)[..|Decimal(n)| - 1] == Decimal(n / 10);
    } else {
      assert Decimal(n) == [DigitChar(n)] && Decimal(n)[..0] == "";
    }
  }

  function Zeros(k: nat): string {
    if k == 0 then "" else "0" + Zeros(k - 1)
  }

  lemma {:induction false} ZerosAre(k: nat)
    ensures |Zeros(k)| == k && forall i :: 0 <= i < k ==> Zeros(k)[i] == '0'
  {
    if k > 0 { ZerosAre(k - 1); }
  }

  lemma {:induction false} PadIs(s: string, width: nat)
    ensures PadStart(s, width) == Zeros(if |s| < width then width - |s| else 0) + s
    decreases width - |s|
  {
    if |s| < width {
      PadIs("0" + s, width);
      ZerosAppend(width - |s| - 1);
      assert Zeros(width - |s| - 1) + ("0" + s) == Zeros(width - |s| - 1) + "0" + s;
    }
  }

  lemma {:induction false} ZerosAppend(k: nat)
    ensures Zeros(k) + "0" == Zeros(k + 1)
  {
    if k > 0 {
      ZerosAppend(k - 1);
      assert "0" + Zeros(k - 1) + "0" == "0" + (Zeros(k - 1) + "0");
    }
  }

  lemma {:induction false} ZerosCountNothing(k: nat, s: string)
    requires Digits(s)
    ensures Digits(Zeros(k) + s) && Value(Zeros(k) + s) == Value(s)
  {
    if k == 0 {
      assert Zeros(k) + s == s;
    } else {
      ZerosCountNothing(k - 1, s);
      assert Zeros(k) + s == "0" + (Zeros(k - 1) + s);
      LeadingZero(Zeros(k - 1) + s);
    }
  }

  /** A padded number is digits of its value, or zeros, a minus sign and the digits of its absolute value. */
  lemma PaddedIs(n: int, width: nat) returns (k: nat)
    ensures n >= 0 ==> Digits(PadStart(ToString(n), width)) && Value(PadStart(ToString(n), width)) == n
    ensures n < 0 ==> PadStart(ToString(n), width) == Zeros(k) + "-" + Decimal(-n)
  {
    var s := ToString(n);
    PadIs(s, width);
    k := if |s| < width then width - |s| else 0;
    if n >= 0 {
      DecimalIs(n);
      ZerosCountNothing(k, s);
    } else {
      assert Zeros(k) + ("-" + Decimal(-n)) == Zeros(k) + "-" + Decimal(-n);
    }
  }

  lemma SameDash(k: nat, j: nat, a: string, b: string)
    requires Zeros(k) + "-" + a == Zeros(j) + "-" + b
    ensures a == b
  {
    ZerosAre(k);
    ZerosAre(j);
    var s := Zeros(k) + "-" + a;
    assert s[k] == '-' && s[j] == '-';
    assert k == j;
    assert s[k + 1..] == a && s[j + 1..] == b;
  }

  lemma DashIsNoDigit(k: nat, a: string)
    ensures !Digits(Zeros(k) + "-" + a)
  {
    ZerosAre(k);
    assert !IsDigit((Zeros(k) + "-" + a)[k]);
  }

  lemma YearIsInjective(y: int, z: int)
    requires PadStart(ToString(y), 4) == PadStart(ToString(z), 4)
    ensures y == z
  {
    var k := PaddedIs(y, 4);
    var j := PaddedIs(z, 4);
    hide PadStart, ToString, Decimal, Digits, Zeros, Value, IsDigit;
    if y < 0 && z < 0 {
      SameDash(k, j, Decimal(-y), Decimal(-z));
      DecimalIs(-y);
      DecimalIs(-z);
    } else if y < 0 {
      DashIsNoDigit(k, Decimal(-y));
    } else if z < 0 {
      DashIsNoDigit(j, Decimal(-z));
    }
  }

  lemma FormatIsInjective(c: Civil, d: Civil)
    requires ValidCivil(c) && ValidCivil(d) && FormatDateParts(c) == FormatDateParts(d)
    ensures c == d
  {
    TwoDigits(c);
    TwoDigits(d);
    hide *;
    SplitParts(c);
    SplitParts(d);
    SameTail(PadStart(ToString(c.year), 4), PadStart(ToString(c.month), 2), PadStart(ToString(c.day), 2),
             PadStart(ToString(d.year), 4), PadStart(ToString(d.month), 2), PadStart(ToString(d.day), 2));
    YearIsInjective(c.year, d.year);
  }

  lemma TwoDigits(c: Civil)
    requires ValidCivil(c)
    ensures |PadStart(ToString(c.month), 2)| == 2 && Value(PadStart(ToString(c.month), 2)) == c.month
    ensures |PadStart(ToString(c.day), 2)| == 2 && Value(PadStart(ToString(c.day), 2)) == c.day
  {
    Formatted(c.month, 2);
    Formatted(c.day, 2);
    hide PadStart, ToString, Value;
  }

  lemma SplitParts(c: Civil)
    ensures FormatDateParts(c) == PadStart(ToString(c.year), 4) + "-" + PadStart(ToString(c.month), 2) + "-"
            + PadStart(ToString(c.day), 2)
  {
  }

  lemma SameTail(y: string, m: string, d: string, y': string, m': string, d': string)
    requires |m| == |m'| == |d| == |d'| == 2 && y + "-" + m + "-" + d == y' + "-" + m' + "-" + d'
    ensures y == y' && m == m' && d == d'
  {
    var s, s' := y + "-" + m + "-" + d, y' + "-" + m' + "-" + d';
    var n := |y|;
    assert |y'| == n;
    assert s[..n] == y && s'[..n] == y';
    assert s[n + 1..n + 3] == m && s'[n + 1..n + 3] == m';
    assert s[n + 4..] == d && s'[n + 4..] == d';
  }

  lemma DayStringIsInjective(m: int, n: int)
    ensures DayString(m) == DayString(n) ==> m == n
  {
    FromDayNumberIsInverse(m);
    FromDayNumberIsInverse(n);
    DayStringIs(m);
    DayStringIs(n);
    hide *;
    if DayString(m) == DayString(n) { FormatIsInjective(FromDayNumber(m), FromDayNumber(n)); }
  }

  lemma DayStringIs(n: int)
    ensures DayString(n) == FormatDateParts(FromDayNumber(n))
  {
    hide FormatDateParts, FromDayNumber;
  }

  lemma SumIs(a: string, n: int)
    requires IsValidDateString(a)
    ensures AddDays(a, n) == Some(DayString(UtcDay(a) + n))
  {
  }

  /** String order is chronological order. */
  lemma StringOrderIsChronological(a: string, b: string)
    requires Regular(a) && Regular(b)
    ensures Less(a, b) <==> DifferenceInDays(a, b).value > 0
    ensures a == b <==> DifferenceInDays(a, b) == Some(0)
  {
    LessIsBefore(a, b);
    DayNumberIsMonotone(Parts(a), Parts(b));
  }

  /** The i-th date of the range that getDateRange walks. */
  function Nth(start: string, i: nat): string {
    if i == 0 then start else DayString(UtcDay(start) + i)
  }

  lemma NthOf(start: string, i: nat)
    ensures i == 0 ==> Nth(start, i) == start
    ensures i > 0 ==> Nth(start, i) == DayString(UtcDay(start) + i)
  {
    hide DayString, UtcDay, IsValidDateString;
  }

  lemma NextDay(start: string, end: string, i: nat)
    requires IsValidDateString(start) && IsValidDateString(end) && i < UtcDay(end) - UtcDay(start) + 1
    ensures i > 0 ==> Regular(Nth(start, i)) && AddDays(start, i) == Some(Nth(start, i))
    ensures AddDays(Nth(start, i), 1) == Some(Nth(start, i + 1))
  {
    hide *;
    NthOf(start, i);
    NthOf(start, i + 1);
    UtcBounds(start);
    UtcBounds(end);
    if i == 0 {
      SumIs(start, 1);
    } else {
      DayStringIsRegular(UtcDay(start) + i);
      RegularDay(Nth(start, i));
      SumIs(start, i);
      SumIs(Nth(start, i), 1);
    }
  }

  /** getDateRange; None stands for its RangeErrors. */
  method GetDateRange(start: string, end: string) returns (r: Option<seq<string>>)
    ensures r.Some? <==> DifferenceInDays(start, end).Some? && DifferenceInDays(start, end).value >= 0
    ensures r.Some? ==> IsRange(start, end, r.value)
  {
    DifferenceDefined(start, end);
    hide *;
    if !IsValidDateString(start) || !IsValidDateString(end) { return None; }
    DifferenceIs(start, end);
    var diff := DifferenceInDays(start, end).value;
    if diff < 0 { return None; }
    var dates: seq<string> := [];
    var current := start;
    FirstOfRange(start);
    for i := 0 to diff + 1
      invariant |dates| == i && current == Nth(start, i)
      invariant forall j :: 0 <= j < i ==> dates[j] == Nth(start, j)
    {
      NextDay(start, end, i);
      dates := dates + [current];
      current := AddDays(current, 1).value;
    }
    WalkIsRange(start, end, dates);
    r := Some(dates);
  }

  lemma DifferenceDefined(a: string, b: string)
    ensures DifferenceInDays(a, b).Some? <==> IsValidDateString(a) && IsValidDateString(b)
  {
    hide IsValidDateString, UtcDay;
  }

  /** Exactly the difference + 1 consecutive dates; between regular ends, exactly the dates from start to end. */
  ghost predicate IsRange(start: string, end: string, dates: seq<string>) {
    && DifferenceInDays(start, end).Some?
    && |dates| == DifferenceInDays(start, end).value + 1
    && (forall i :: 0 < i < |dates| ==> AddDays(start, i) == Some(dates[i]) && Regular(dates[i]))
    && (|dates| > 0 ==> dates[0] == start)
    && (Regular(start) && Regular(end) ==> forall d :: Regular(d) ==>
       (d in dates <==> !Less(d, start) && !Less(end, d)))
  }

  lemma FirstOfRange(start: string)
    requires IsValidDateString(start)
    ensures Nth(start, 0) == start
  {
  }

  lemma WalkIsRange(start: string, end: string, dates: seq<string>)
    requires IsValidDateString(start) && IsValidDateString(end) && UtcDay(end) - UtcDay(start) >= 0
    requires |dates| == UtcDay(end) - UtcDay(start) + 1
    requires forall j :: 0 <= j < |dates| ==> dates[j] == Nth(start, j)
    ensures IsRange(start, end, dates)
  {
    hide *;
    DifferenceIs(start, end);
    FirstOfRange(start);
    forall i | 0 < i < |dates| ensures AddDays(start, i) == Some(dates[i]) && Regular(dates[i]) {
      NextDay(start, end, i);
    }
    if Regular(start) && Regular(end) { RangeIsComplete(start, end, dates); }
    RangeFrom(start, end, dates);
  }

  lemma RangeFrom(start: string, end: string, dates: seq<string>)
    requires DifferenceInDays(start, end).Some? && |dates| == DifferenceInDays(start, end).value + 1
    requires forall i :: 0 < i < |dates| ==> AddDays(start, i) == Some(dates[i]) && Regular(dates[i])
    requires |dates| > 0 ==> dates[0] == start
    requires Regular(start) && Regular(end) ==> forall d :: Regular(d) ==>
             (d in dates <==> !Less(d, start) && !Less(end, d))
    ensures IsRange(start, end, dates)
  {
    hide DifferenceInDays, AddDays, Regular, Less;
  }

  lemma RemappedDay(s: string)
    requires IsValidDateString(s) && !Regular(s)
    ensures FIRST_DAY <= UtcDay(s) < LAST_DAY
  {
    YearBound(s);
    Remapped(Parts(s), UtcDay(s));
  }

  lemma UtcBounds(s: string)
    requires IsValidDateString(s)
    ensures FIRST_DAY <= UtcDay(s) <= LAST_DAY
  {
    hide *;
    if Regular(s) { RegularDay(s); } else { RemappedDay(s); }
  }

  lemma InRange(start: string, end: string, d: string)
    requires Regular(start) && Regular(end) && Regular(d)
    ensures IsValidDateString(start) && IsValidDateString(end) && IsValidDateString(d)
    ensures !Less(d, start) && !Less(end, d) <==> 0 <= UtcDay(d) - UtcDay(start) <= UtcDay(end) - UtcDay(start)
  {
    hide *;
    RegularDay(start);
    RegularDay(end);
    RegularDay(d);
    StringOrderIsChronological(d, start);
    StringOrderIsChronological(end, d);
    DifferenceIs(d, start);
    DifferenceIs(end, d);
  }

  lemma RangeIsComplete(start: string, end: string, dates: seq<string>)
    requires IsValidDateString(start) && IsValidDateString(end) && Regular(start) && Regular(end)
    requires |dates| == UtcDay(end) - UtcDay(start) + 1
    requires forall j :: 0 <= j < |dates| ==> dates[j] == Nth(start, j)
    ensures forall d :: Regular(d) ==> (d in dates <==> !Less(d, start) && !Less(end, d))
  {
    hide *;
    forall d | Regular(d) ensures d in dates <==> !Less(d, start) && !Less(end, d) {
      InRange(start, end, d);
      var k := UtcDay(d) - UtcDay(start);
      if 0 <= k < |dates| {
        NthIs(start, end, k);
        RegularDay(d);
        assert dates[k] == Nth(start, k);
      }
      if d in dates {
        var j :| 0 <= j < |dates| && dates[j] == d;
        NthIs(start, end, j);
      }
    }
  }

  lemma NthIs(start: string, end: string, i: nat)
    requires IsValidDateString(start) && IsValidDateString(end) && Regular(start) && i <= UtcDay(end) - UtcDay(start)
    ensures Nth(start, i) == DayString(UtcDay(start) + i)
    ensures IsValidDateString(Nth(start, i)) && UtcDay(Nth(start, i)) == UtcDay(start) + i
  {
    hide *;
    NthOf(start, i);
    UtcBounds(start);
    UtcBounds(end);
    RegularDay(start);
    DayStringIsRegular(UtcDay(start) + i);
    RegularDay(DayString(UtcDay(start) + i));
  }
}
