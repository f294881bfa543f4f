/** The proleptic Gregorian calendar of section 21.4.1 of ECMA-262, and the date texts the usage services cut
    out of `toISOString()`. Months count from 0, as in ECMA-262. */
module Calendar {
  const MS_PER_DAY := 86_400_000

  function Day(t: int): int {
    t / MS_PER_DAY
  }

  /** Day number of the first day of a year. */
  function DayFromYear(y: int): int {
    365 * (y - 1970) + (y - 1969) / 4 - (y - 1901) / 100 + (y - 1601) / 400
  }

  predicate Leap(y: int) {
    y % 4 == 0 && (y % 100 != 0 || y % 400 == 0)
  }

  function DaysInYear(y: int): int {
    if Leap(y) then 366 else 365
  }

  /** Days of a year before the given month; 12 stands for the whole year. */
  function DaysBefore(leap: bool, month: int): int
    requires 0 <= month <= 12
  {
    var extra := if leap then 1 else 0;
    if month == 0 then 0
    else if month == 1 then 31
    else if month == 2 then 59 + extra
    else if month == 3 then 90 + extra
    else if month == 4 then 120 + extra
    else if month == 5 then 151 + extra
    else if month == 6 then 181 + extra
    else if month == 7 then 212 + extra
    else if month == 8 then 243 + extra
    else if month == 9 then 273 + extra
    else if month == 10 then 304 + extra
    else if month == 11 then 334 + extra
    else 365 + extra
  }

  function DaysInMonth(y: int, month: int): int
    requires 0 <= month < 12
  {
    DaysBefore(Leap(y), month + 1) - DaysBefore(Leap(y), month)
  }

  datatype Date = Date(year: int, month: int, day: int)

  predicate Valid(c: Date) {
    0 <= c.month < 12 && 1 <= c.day <= DaysInMonth(c.year, c.month)
  }

  lemma YearLength(y: int)
    ensures DayFromYear(y + 1) == DayFromYear(y) + DaysInYear(y)
  {
    Quarter(y);
    Century(y);
    FourCenturies(y);
  }

  lemma Quarter(y: int)
    ensures (y - 1968) / 4 == (y - 1969) / 4 + if y % 4 == 0 then 1 else 0
  {
  }

  lemma Century(y: int)
    ensures (y - 1900) / 100 == (y - 1901) / 100 + if y % 100 == 0 then 1 else 0
  {
  }

  lemma QuotientIs(n: int, q: int)
    requires 400 * q <= n < 400 * q + 400
    ensures n / 400 == q
  {
  }

  lemma LeapDivisors(q: int, r: int)
    ensures (400 * q) % 100 == 0
    ensures (100 * r) % 4 == 0
  {
    assert 400 * q == 100 * (4 * q);
    assert 100 * r == 4 * (25 * r);
  }

  lemma FourCenturies(y: int)
    ensures (y - 1600) / 400 == (y - 1601) / 400 + if y % 400 == 0 then 1 else 0
    ensures y % 400 == 0 ==> y % 100 == 0
    ensures y % 100 == 0 ==> y % 4 == 0
  {
    var q, r := y / 400, y % 400;
    QuotientIs(y - 1600, q - 4);
    QuotientIs(y - 1601, if r == 0 then q - 5 else q - 4);
    LeapDivisors(q, y / 100);
  }

  lemma {:induction false} YearsApart(y: int, z: int)
    requires y <= z
    ensures DayFromYear(y) + 365 * (z - y) <= DayFromYear(z)
    decreases z - y
  {
    if y < z {
      YearsApart(y, z - 1);
      YearLength(z - 1);
    }
  }

  /** The largest year that has begun by day `d`, searched upwards from `y`. */
  function YearUp(d: int, y: int): (r: int)
    requires DayFromYear(y) <= d
    ensures DayFromYear(r) <= d < DayFromYear(r + 1)
    decreases d - DayFromYear(y)
  {
    YearLength(y);
    if d < DayFromYear(y + 1) then y else YearUp(d, y + 1)
  }

  function YearDown(d: int, y: int): (r: int)
    requires d < DayFromYear(y + 1)
    ensures DayFromYear(r) <= d < DayFromYear(r + 1)
    decreases DayFromYear(y + 1) - d
  {
    YearLength(y);
    if DayFromYear(y) <= d then y else YearDown(d, y - 1)
  }

  function YearOf(d: int): (r: int)
    ensures DayFromYear(r) <= d < DayFromYear(r + 1)
  {
    if DayFromYear(1970) <= d then YearUp(d, 1970) else YearDown(d, 1969)
  }

  function MonthIn(leap: bool, dayInYear: int): (m: int)
    requires 0 <= dayInYear < if leap then 366 else 365
    ensures 0 <= m < 12 && DaysBefore(leap, m) <= dayInYear < DaysBefore(leap, m + 1)
  {
    if dayInYear < DaysBefore(leap, 1) then 0
    else if dayInYear < DaysBefore(leap, 2) then 1
    else if dayInYear < DaysBefore(leap, 3) then 2
    else if dayInYear < DaysBefore(leap, 4) then 3
    else if dayInYear < DaysBefore(leap, 5) then 4
    else if dayInYear < DaysBefore(leap, 6) then 5
    else if dayInYear < DaysBefore(leap, 7) then 6
    else if dayInYear < DaysBefore(leap, 8) then 7
    else if dayInYear < DaysBefore(leap, 9) then 8
    else if dayInYear < DaysBefore(leap, 10) then 9
    else if dayInYear < DaysBefore(leap, 11) then 10
    else 11
  }

  /** The calendar date of a day number. */
  function Civil(d: int): (c: Date)
    ensures Valid(c) && DayOf(c) == d
  {
    var y := YearOf(d);
    InYear(d, y, d - DayFromYear(y))
  }

  function InYear(d: int, y: int, within: int): (c: Date)
    requires within == d - DayFromYear(y) && DayFromYear(y) <= d < DayFromYear(y + 1)
    ensures Valid(c) && DayOf(c) == d && c.year == y
  {
    YearLength(y);
    var m := MonthIn(Leap(y), within);
    Date(y, m, within - DaysBefore(Leap(y), m) + 1)
  }

  /** The day number of a date. */
  function DayOf(c: Date): int
    requires 0 <= c.month < 12
  {
    DayFromYear(c.year) + DaysBefore(Leap(c.year), c.month) + c.day - 1
  }

  /** MakeDay of ECMA-262: any month and day number, carried into years. */
  function MakeDay(year: int, month: int, day: int): int {
    var y := year + month / 12;
    DayFromYear(y) + DaysBefore(Leap(y), month % 12) + day - 1
  }

  /** MakeFullYear of ECMA-262: `Date.UTC` reads years 0 to 99 as 1900 to 1999. */
  function FullYear(year: int): int {
    if 0 <= year <= 99 then 1900 + year else year
  }

  function UtcDay(year: int, month: int, day: int): int {
    MakeDay(FullYear(year), month, day)
  }

  /** Dates and day numbers correspond one to one. */
  lemma CivilOfDay(c: Date)
    requires Valid(c)
    ensures Civil(DayOf(c)) == c
  {
    DatesDiffer(c, Civil(DayOf(c)));
  }

  lemma WithinYear(c: Date)
    requires Valid(c)
    ensures DayFromYear(c.year) <= DayOf(c) < DayFromYear(c.year + 1)
  {
    YearLength(c.year);
  }

  lemma DatesDiffer(c: Date, r: Date)
    requires Valid(c) && Valid(r) && DayOf(c) == DayOf(r)
    ensures c == r
  {
    hide DayFromYear;
    WithinYear(c);
    WithinYear(r);
    SameYear(DayOf(c), c.year, r.year);
    MonthUnique(Leap(c.year), DayOf(c) - DayFromYear(c.year), c.month, r.month);
  }

  lemma SameYear(d: int, y: int, z: int)
    requires DayFromYear(y) <= d < DayFromYear(y + 1) && DayFromYear(z) <= d < DayFromYear(z + 1)
    ensures y == z
  {
    if y < z {
      YearsApart(y + 1, z);
    } else if z < y {
      YearsApart(z + 1, y);
    }
  }

  lemma MonthUnique(leap: bool, n: int, a: int, b: int)
    requires 0 <= a < 12 && 0 <= b < 12
    requires DaysBefore(leap, a) <= n < DaysBefore(leap, a + 1)
    requires DaysBefore(leap, b) <= n < DaysBefore(leap, b + 1)
    ensures a == b
  {
  }

  /** Month and day of the month order the days of a year. */
  lemma LastOfMonth(d: int, e: int)
    requires Civil(d).year == Civil(e).year && Civil(d).month == Civil(e).month
    requires Civil(e).day == DaysInMonth(Civil(e).year, Civil(e).month)
    ensures d <= e
  {
  }

  // ---------- Texts

  function Digit(n: nat): char
    requires n < 10
  {
    "0123456789"[n]
  }

  function Decimal(n: nat): string {
    if n < 10 then [Digit(n)] else Decimal(n / 10) + [Digit(n % 10)]
  }

  function Zeros(n: nat): string {
    seq(n, _ => '0')
  }

  /** Decimal digits, padded with zeros on the left to the given width. */
  function Pad(n: nat, width: nat): string {
    var d := Decimal(n);
    if |d| >= width then d else Zeros(width - |d|) + d
  }

  function DigitValue(c: char): nat {
    if '0' <= c <= '9' then (c as int - '0' as int) else 0
  }

  function ValueOf(s: string): nat {
    if |s| == 0 then 0 else 10 * ValueOf(s[..|s| - 1]) + DigitValue(s[|s| - 1])
  }

  lemma {:induction false} DecimalValue(n: nat)
    ensures ValueOf(Decimal(n)) == n
  {
    if n < 10 {
      assert Decimal(n)[..0] == "";
    } else {
      DecimalValue(n / 10);
      assert Decimal(n)[..|Decimal(n)| - 1] == Decimal(n / 10);
    }
  }

  lemma {:induction false} LeadingZeros(k: nat, s: string)
    ensures ValueOf(Zeros(k) + s) == ValueOf(s)
    decreases k + |s|
  {
    var z := Zeros(k) + s;
    if |s| > 0 {
      LeadingZeros(k, s[..|s| - 1]);
      assert z[..|z| - 1] == Zeros(k) + s[..|s| - 1];
    } else if k > 0 {
      LeadingZeros(k - 1, s);
      assert z[..|z| - 1] == Zeros(k - 1) + s;
    }
  }

  lemma PadValue(n: nat, width: nat)
    ensures ValueOf(Pad(n, width)) == n
  {
    DecimalValue(n);
    if |Decimal(n)| < width {
      LeadingZeros(width - |Decimal(n)|, Decimal(n));
    }
  }

  lemma {:induction false} DecimalDigits(n: nat)
    ensures |Decimal(n)| >= 1
    ensures forall i | 0 <= i < |Decimal(n)| :: '0' <= Decimal(n)[i] <= '9'
    ensures n < 100 ==> |Decimal(n)| <= 2
    ensures n < 1000 ==> |Decimal(n)| <= 3
    ensures 1000 <= n < 10000 ==> |Decimal(n)| == 4
    ensures n >= 10000 ==> |Decimal(n)| >= 5
  {
    if n >= 10 {
      DecimalDigits(n / 10);
      if n / 10 >= 10 {
        DecimalDigits(n / 10 / 10);
      }
    }
  }

  /** Four digits for years 0 to 9999, a sign and six digits outside. */
  function YearText(y: int): string {
    if 0 <= y <= 9999 then Pad(y, 4)
    else if y < 0 then "-" + Pad(-y, 6)
    else "+" + Pad(y, 6)
  }

  /** The date part of `toISOString()`. */
  function IsoDatePart(d: int): string {
    var c := Civil(d);
    YearText(c.year) + "-" + Pad(c.month + 1, 2) + "-" + Pad(c.day, 2)
  }

  lemma YearTextShape(y: int)
    ensures 0 <= y <= 9999 ==> |YearText(y)| == 4 && '0' <= YearText(y)[0] <= '9'
    ensures !(0 <= y <= 9999) ==> |YearText(y)| >= 7 && YearText(y)[0] in "+-"
  {
    DecimalDigits(if y < 0 then -y else y);
  }

  lemma TwoDigits(n: nat)
    requires n < 100
    ensures |Pad(n, 2)| == 2
  {
    DecimalDigits(n);
  }

  lemma IsoLength(d: int)
    ensures |IsoDatePart(d)| >= 10
    ensures |IsoDatePart(d)| == 10 <==> 0 <= Civil(d).year <= 9999
  {
    YearTextShape(Civil(d).year);
    TwoDigits(Civil(d).month + 1);
    TwoDigits(Civil(d).day);
  }

  /** `toISOString().slice(0, 10)` */
  function DateText(d: int): (r: string)
    ensures |r| == 10
  {
    IsoLength(d);
    IsoDatePart(d)[..10]
  }

  /** `toISOString().slice(0, 7)`: the month part of a usage key. */
  function MonthText(d: int): (r: string)
    ensures |r| == 7
  {
    IsoLength(d);
    IsoDatePart(d)[..7]
  }

  lemma MonthTextOf(d: int)
    requires 0 <= Civil(d).year <= 9999
    ensures MonthText(d) == Pad(Civil(d).year, 4) + "-" + Pad(Civil(d).month + 1, 2)
    ensures DateText(d) == IsoDatePart(d) && DateText(d)[..7] == MonthText(d)
  {
    YearTextShape(Civil(d).year);
    TwoDigits(Civil(d).month + 1);
    TwoDigits(Civil(d).day);
  }

  lemma HalvesDetermined(a: string, x: string, b: string, z: string)
    requires |a| == |b| && a + "-" + x == b + "-" + z
    ensures a == b && x == z
  {
    var s := a + "-" + x;
    assert s[..|a|] == a && s[|a| + 1..] == x;
    assert s[..|b|] == b && s[|b| + 1..] == z;
  }

  lemma PaddedInjective(y: int, m: int, z: int, n: int)
    requires 0 <= y <= 9999 && 0 <= z <= 9999 && 0 <= m < 12 && 0 <= n < 12
    requires Pad(y, 4) + "-" + Pad(m + 1, 2) == Pad(z, 4) + "-" + Pad(n + 1, 2)
    ensures y == z && m == n
  {
    YearTextShape(y);
    YearTextShape(z);
    TwoDigits(m + 1);
    TwoDigits(n + 1);
    hide Pad, Decimal, ValueOf;
    HalvesDetermined(Pad(y, 4), Pad(m + 1, 2), Pad(z, 4), Pad(n + 1, 2));
    PadValue(y, 4);
    PadValue(z, 4);
    PadValue(m + 1, 2);
    PadValue(n + 1, 2);
  }

  /** Two instants carry the same month text exactly when they fall in the same month. */
  lemma MonthTextInjective(d: int, e: int)
    requires 0 <= Civil(d).year <= 9999
    ensures MonthText(d) == MonthText(e) <==> Civil(d).year == Civil(e).year && Civil(d).month == Civil(e).month
  {
    MonthTextOf(d);
    if 0 <= Civil(e).year <= 9999 {
      MonthTextOf(e);
      if MonthText(d) == MonthText(e) {
        PaddedInjective(Civil(d).year, Civil(d).month, Civil(e).year, Civil(e).month);
      }
    } else {
      FirstCharDiffers(d, e);
    }
  }

  lemma FirstCharDiffers(d: int, e: int)
    requires 0 <= Civil(d).year <= 9999 && !(0 <= Civil(e).year <= 9999)
    ensures MonthText(d) != MonthText(e)
  {
    YearTextShape(Civil(d).year);
    YearTextShape(Civil(e).year);
    IsoLength(d);
    IsoLength(e);
    assert MonthText(d)[0] == YearText(Civil(d).year)[0];
    assert MonthText(e)[0] == YearText(Civil(e).year)[0];
  }

  // ---------- The previous month

  function PlainYear(y: int): string {
    if y < 0 then "-" + Decimal(-y) else Decimal(y)
  }

  datatype PreviousMonth = PreviousMonth(prevMonthLabel: string, prevMonthEnd: string)

  function PrevYear(ref: int): int {
    var c := Civil(Day(ref));
    if c.month == 0 then c.year - 1 else c.year
  }

  function PrevMonthIndex(ref: int): int {
    var c := Civil(Day(ref));
    if c.month == 0 then 11 else c.month - 1
  }

  /** `getPreviousCalendarMonth` */
  function GetPreviousCalendarMonth(ref: int): PreviousMonth {
    var prevYear, prevMonthIndex := PrevYear(ref), PrevMonthIndex(ref);
    PreviousMonth(PlainYear(prevYear) + "-" + Pad(prevMonthIndex + 1, 2),
                  DateText(LastDayOfPrevMonth(ref)))
  }

  /** Day 0 of the next month is the last of this one, and the day after it the first of the next. */
  lemma MonthEnd(y: int, m: int)
    requires 0 <= m < 12
    ensures Civil(MakeDay(y, m + 1, 0)) == Date(y, m, DaysInMonth(y, m))
    ensures Civil(MakeDay(y, m + 1, 0) + 1) == if m == 11 then Date(y + 1, 0, 1) else Date(y, m + 1, 1)
  {
    YearLength(y);
    var last := Date(y, m, DaysInMonth(y, m));
    var first := if m == 11 then Date(y + 1, 0, 1) else Date(y, m + 1, 1);
    MonthBoundary(y, m);
    CivilOfDay(last);
    CivilOfDay(first);
  }

  lemma MonthBoundary(y: int, m: int)
    requires 0 <= m < 12
    ensures MakeDay(y, m + 1, 0) == DayOf(Date(y, m, DaysInMonth(y, m)))
    ensures MakeDay(y, m + 1, 0) + 1 == DayOf(if m == 11 then Date(y + 1, 0, 1) else Date(y, m + 1, 1))
    ensures DaysInMonth(y, m) >= 28
  {
    if m == 11 {
      YearLength(y);
      assert 12 / 12 == 1 && 12 % 12 == 0;
    } else {
      assert (m + 1) / 12 == 0 && (m + 1) % 12 == m + 1;
    }
  }

  function LastDayOfPrevMonth(ref: int): int {
    UtcDay(PrevYear(ref), PrevMonthIndex(ref) + 1, 0)
  }

  lemma LastDayDates(ref: int)
    requires 100 <= PrevYear(ref)
    ensures var end := LastDayOfPrevMonth(ref);
            && Civil(end) == Date(PrevYear(ref), PrevMonthIndex(ref), DaysInMonth(PrevYear(ref), PrevMonthIndex(ref)))
            && Civil(end + 1) == Date(Civil(Day(ref)).year, Civil(Day(ref)).month, 1)
  {
    hide Civil, MakeDay, DaysInMonth;
    MonthEnd(PrevYear(ref), PrevMonthIndex(ref));
  }

  lemma LabelIsMonthText(ref: int)
    requires 1000 <= PrevYear(ref) <= 9999
    ensures GetPreviousCalendarMonth(ref).prevMonthLabel == MonthText(LastDayOfPrevMonth(ref))
    ensures GetPreviousCalendarMonth(ref).prevMonthEnd[..7] == MonthText(LastDayOfPrevMonth(ref))
  {
    LastDayDates(ref);
    MonthTextOf(LastDayOfPrevMonth(ref));
    DecimalDigits(PrevYear(ref));
    assert PlainYear(PrevYear(ref)) == Pad(PrevYear(ref), 4);
  }

  /** An instant of the previous month: exactly those carry the label. */
  predicate InPrevMonth(ref: int, d: int) {
    Civil(d).year == PrevYear(ref) && Civil(d).month == PrevMonthIndex(ref)
  }

  lemma LabelNamesPrevMonth(ref: int, d: int)
    requires 1000 <= PrevYear(ref) <= 9999
    ensures MonthText(d) == GetPreviousCalendarMonth(ref).prevMonthLabel <==> InPrevMonth(ref, d)
    ensures InPrevMonth(ref, d) ==> d <= LastDayOfPrevMonth(ref)
  {
    LabelIsMonthText(ref);
    LastDayDates(ref);
    MonthTextInjective(LastDayOfPrevMonth(ref), d);
    if InPrevMonth(ref, d) {
      LastOfMonth(d, LastDayOfPrevMonth(ref));
    }
  }

  /** For a previous month in years 1000 to 9999: a date carries `prevMonthLabel` exactly when it lies in the
      previous month, `prevMonthEnd` is the last such date, and the day after it is the first of the current
      month, which does not carry the label. */
  lemma PreviousMonthCorrect(ref: int)
    requires 1000 <= PrevYear(ref) <= 9999
    ensures forall d :: MonthText(d) == GetPreviousCalendarMonth(ref).prevMonthLabel <==> InPrevMonth(ref, d)
    ensures forall d :: InPrevMonth(ref, d) ==> d <= LastDayOfPrevMonth(ref)
    ensures GetPreviousCalendarMonth(ref).prevMonthEnd == DateText(LastDayOfPrevMonth(ref))
    ensures InPrevMonth(ref, LastDayOfPrevMonth(ref))
    ensures Civil(LastDayOfPrevMonth(ref) + 1) == Date(Civil(Day(ref)).year, Civil(Day(ref)).month, 1)
    ensures MonthText(Day(ref)) != GetPreviousCalendarMonth(ref).prevMonthLabel
  {
    hide Civil, MonthText, DateText, UtcDay;
    LastDayDates(ref);
    forall d ensures MonthText(d) == GetPreviousCalendarMonth(ref).prevMonthLabel <==> InPrevMonth(ref, d)
             ensures InPrevMonth(ref, d) ==> d <= LastDayOfPrevMonth(ref) {
      LabelNamesPrevMonth(ref, d);
    }
  }

  /** A label of seven characters that starts with a minus sign has a dash where the text has a digit. */
  lemma MinusLabel(y: int, text: string)
    requires y < 0 && |Decimal(-y)| >= 1
    requires exists mm: string | |mm| == 2 :: text == "-" + Decimal(-y) + "-" + mm
    ensures text != YearText(y)[..7]
  {
    YearTextShape(y);
    DecimalDigits(-y);
    if |text| == 7 {
      assert text[4] == '-';
      assert YearText(y)[4] == Pad(-y, 6)[3];
    }
  }

  lemma BelowYearZero(ref: int, d: int)
    requires InPrevMonth(ref, d) && PrevYear(ref) < 0
    ensures MonthText(d) != GetPreviousCalendarMonth(ref).prevMonthLabel
  {
    hide Civil;
    var y := PrevYear(ref);
    IsoLength(d);
    YearTextShape(y);
    TwoDigits(PrevMonthIndex(ref) + 1);
    DecimalDigits(-y);
    assert MonthText(d) == YearText(y)[..7];
    MinusLabel(y, GetPreviousCalendarMonth(ref).prevMonthLabel);
  }

  lemma BelowFourDigits(ref: int, d: int)
    requires InPrevMonth(ref, d) && 0 <= PrevYear(ref) < 1000
    ensures MonthText(d) != GetPreviousCalendarMonth(ref).prevMonthLabel
  {
    hide Civil;
    IsoLength(d);
    TwoDigits(PrevMonthIndex(ref) + 1);
    DecimalDigits(PrevYear(ref));
    assert |GetPreviousCalendarMonth(ref).prevMonthLabel| < 7;
  }

  lemma AboveFourDigits(ref: int, d: int)
    requires InPrevMonth(ref, d) && PrevYear(ref) > 9999
    ensures MonthText(d) != GetPreviousCalendarMonth(ref).prevMonthLabel
  {
    hide Civil;
    var y := PrevYear(ref);
    IsoLength(d);
    YearTextShape(y);
    DecimalDigits(y);
    assert MonthText(d)[0] == '+';
    assert GetPreviousCalendarMonth(ref).prevMonthLabel[0] == Decimal(y)[0];
  }

  /** A date of the previous month carries the label exactly when that month lies in years 1000 to 9999. */
  lemma PreviousMonthLabelExactly(ref: int, d: int)
    requires InPrevMonth(ref, d)
    ensures MonthText(d) == GetPreviousCalendarMonth(ref).prevMonthLabel <==> 1000 <= PrevYear(ref) <= 9999
  {
    hide Civil, MonthText, GetPreviousCalendarMonth, InPrevMonth;
    if 1000 <= PrevYear(ref) <= 9999 {
      LabelNamesPrevMonth(ref, d);
    } else if PrevYear(ref) < 0 {
      BelowYearZero(ref, d);
    } else if PrevYear(ref) < 1000 {
      BelowFourDigits(ref, d);
    } else {
      AboveFourDigits(ref, d);
    }
  }

  /** Two instants of one month are less than 31 days apart. */
  lemma SameMonthClose(s: int, t: int)
    requires 0 <= Civil(Day(s)).year <= 9999 && MonthText(Day(s)) == MonthText(Day(t))
    ensures t < s + 31 * MS_PER_DAY
  {
    hide Civil, MonthText, DayFromYear;
    MonthTextInjective(Day(s), Day(t));
    SameMonthDays(Civil(Day(s)), Civil(Day(t)));
    DayBounds(s);
    DayBounds(t);
  }

  lemma DayBounds(t: int)
    ensures MS_PER_DAY * Day(t) <= t < MS_PER_DAY * Day(t) + MS_PER_DAY
  {
  }

  lemma SameMonthDays(c: Date, r: Date)
    requires Valid(c) && Valid(r) && c.year == r.year && c.month == r.month
    ensures DayOf(r) <= DayOf(c) + 30
  {
    hide DayFromYear;
  }
}
