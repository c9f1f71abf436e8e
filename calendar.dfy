/**
 * Dates as the core sees them: an integer count of days since 1970-01-01 in UTC,
 * the proleptic Gregorian calendar date of such a day, its weekday (`getDay`),
 * and the `YYYY-MM-DD` part of `toISOString()`.
 */
module Calendar {
  import opened JsBuiltins

  /** `getDay()`'s range: 0 is Sunday, 6 is Saturday. */
  type DayOfWeek = k: int | 0 <= k < 7

  const Saturday: DayOfWeek := 6

  /** The largest |day| a JavaScript Date can hold (8.64e15 ms). */
  const MaxDay: int := 100_000_000

  /** The weekday of a day in UTC; 1970-01-01 was a Thursday (4). */
  function Weekday(day: int): DayOfWeek {
    (day + 4) % 7
  }

  /** Each day's weekday follows the previous day's, and the week repeats every seven days. */
  lemma WeekdayCycle(day: int)
    ensures Weekday(day + 1) == (Weekday(day) + 1) % 7
    ensures Weekday(day + 7) == Weekday(day)
    ensures Weekday(0) == 4
  {
  }

  /* ----------------------------------------------------------- years */

  predicate IsLeapYear(y: int) {
    y % 4 == 0 && (y % 100 != 0 || y % 400 == 0)
  }

  function DaysInYear(y: int): int {
    if IsLeapYear(y) then 366 else 365
  }

  /** Leap years in 1..n, extended to all integers by floor division. */
  function LeapYearsThrough(n: int): int {
    n / 4 - n / 100 + n / 400
  }

  /** The day number of January 1st of year `y`. */
  function DaysBeforeYear(y: int): int {
    365 * (y - 1970) + LeapYearsThrough(y - 1) - LeapYearsThrough(1969)
  }

  /** Consecutive New Year's days are one year length apart. */
  lemma DaysBeforeNextYear(y: int)
    ensures DaysBeforeYear(y + 1) == DaysBeforeYear(y) + DaysInYear(y)
  {
    LeapYearsStep(y);
    assert DaysBeforeYear(y + 1) - DaysBeforeYear(y) == 365 + LeapYearsThrough(y) - LeapYearsThrough(y - 1);
  }

  /** Going from year y - 1 to year y adds one leap year exactly when y is one. */
  lemma LeapYearsStep(y: int)
    ensures LeapYearsThrough(y) - LeapYearsThrough(y - 1) == if IsLeapYear(y) then 1 else 0
  {
    FloorDivStep4(y);
    FloorDivStep100(y);
    FloorDivStep400(y);
    DivisibilityChain(y);
  }

  lemma DivisibilityChain(y: int)
    ensures y % 400 == 0 ==> y % 100 == 0
    ensures y % 100 == 0 ==> y % 4 == 0
  {
    if y % 400 == 0 {
      MultipleOf100(y, 4 * (y / 400));
    }
    if y % 100 == 0 {
      MultipleOf4(y, 25 * (y / 100));
    }
  }

  lemma MultipleOf100(y: int, q: int)
    requires y == 100 * q
    ensures y % 100 == 0
  {
  }

  lemma MultipleOf4(y: int, q: int)
    requires y == 4 * q
    ensures y % 4 == 0
  {
  }

  lemma FloorDivStep4(y: int)
    ensures y / 4 - (y - 1) / 4 == if y % 4 == 0 then 1 else 0
  {
  }

  lemma FloorDivStep100(y: int)
    ensures y / 100 - (y - 1) / 100 == if y % 100 == 0 then 1 else 0
  {
  }

  lemma FloorDivStep400(y: int)
    ensures y / 400 - (y - 1) / 400 == if y % 400 == 0 then 1 else 0
  {
  }

  /** New Year's day numbers never decrease: the start of the year after `a` is no later than that of any year after `a`. */
  lemma {:induction false} DaysBeforeYearIncreasing(a: int, b: int)
    requires a < b
    ensures DaysBeforeYear(a + 1) <= DaysBeforeYear(b)
    decreases b - a
  {
    if a + 1 < b {
      DaysBeforeYearIncreasing(a + 1, b);
      DaysBeforeNextYear(a + 1);
    }
  }

  /* ---------------------------------------------------------- months */

  function DaysInMonth(y: int, m: int): int
    requires 1 <= m <= 12
  {
    if m == 2 then (if IsLeapYear(y) then 29 else 28)
    else if m == 4 || m == 6 || m == 9 || m == 11 then 30
    else 31
  }

  /** Days of year `y` before the first of month `m`; month 13 stands for the next year. */
  function DaysBeforeMonth(y: int, m: int): int
    requires 1 <= m <= 13
  {
    var common :=
      if m == 1 then 0 else if m == 2 then 31 else if m == 3 then 59
      else if m == 4 then 90 else if m == 5 then 120 else if m == 6 then 151
      else if m == 7 then 181 else if m == 8 then 212 else if m == 9 then 243
      else if m == 10 then 273 else if m == 11 then 304 else if m == 12 then 334
      else 365;
    common + (if m > 2 && IsLeapYear(y) then 1 else 0)
  }

  lemma DaysBeforeNextMonth(y: int, m: int)
    requires 1 <= m <= 12
    ensures DaysBeforeMonth(y, m + 1) == DaysBeforeMonth(y, m) + DaysInMonth(y, m)
    ensures DaysBeforeMonth(y, 13) == DaysInYear(y)
  {
  }

  lemma DaysBeforeMonthIncreasing(y: int, a: int, b: int)
    requires 1 <= a < b <= 13
    ensures DaysBeforeMonth(y, a + 1) <= DaysBeforeMonth(y, b)
  {
  }

  /* ---------------------------------------------------- civil dates */

  datatype CivilDate = CivilDate(year: int, month: int, day: int)

  predicate ValidCivil(c: CivilDate) {
    1 <= c.month <= 12 && 1 <= c.day <= DaysInMonth(c.year, c.month)
  }

  /** The day number of a calendar date. */
  function DaysFromCivil(c: CivilDate): int
    requires ValidCivil(c)
  {
    DaysBeforeYear(c.year) + DaysBeforeMonth(c.year, c.month) + c.day - 1
  }

  /** The year containing `day`, searching downwards from `y`. */
  function YearAtOrBelow(day: int, y: int): (r: int)
    requires day < DaysBeforeYear(y + 1)
    ensures r <= y
    ensures DaysBeforeYear(r) <= day < DaysBeforeYear(r + 1)
    decreases DaysBeforeYear(y + 1) - day
  {
    if DaysBeforeYear(y) <= day then y
    else
      DaysBeforeNextYear(y);
      YearAtOrBelow(day, y - 1)
  }

  /** The year containing `day`, searching upwards from `y`. */
  function YearAtOrAbove(day: int, y: int): (r: int)
    requires DaysBeforeYear(y) <= day
    ensures y <= r
    ensures DaysBeforeYear(r) <= day < DaysBeforeYear(r + 1)
    decreases day - DaysBeforeYear(y)
  {
    if day < DaysBeforeYear(y + 1) then y
    else
      DaysBeforeNextYear(y);
      YearAtOrAbove(day, y + 1)
  }

  /** The year containing `day`, starting the search at an estimate from the mean year length. */
  function YearOf(day: int): (y: int)
    ensures DaysBeforeYear(y) <= day < DaysBeforeYear(y + 1)
  {
    var guess := 1970 + (day * 400) / 146097;
    if day < DaysBeforeYear(guess) then YearAtOrBelow(day, guess - 1)
    else YearAtOrAbove(day, guess)
  }

  /** The month of year `y` containing day-of-year `doy`, searching downwards from `m`. */
  function MonthOf(doy: int, y: int, m: int): (r: int)
    requires 1 <= m <= 12 && 0 <= doy < DaysBeforeMonth(y, m + 1)
    ensures 1 <= r <= m
    ensures DaysBeforeMonth(y, r) <= doy < DaysBeforeMonth(y, r + 1)
  {
    if DaysBeforeMonth(y, m) <= doy then m else MonthOf(doy, y, m - 1)
  }

  /** The calendar date of a day number; `DaysFromCivil` undoes it. */
  function ToCivil(day: int): (c: CivilDate)
    ensures ValidCivil(c)
    ensures DaysFromCivil(c) == day
  {
    var y := YearOf(day);
    DaysBeforeNextYear(y);
    DaysBeforeNextMonth(y, 12);
    var doy := day - DaysBeforeYear(y);
    var m := MonthOf(doy, y, 12);
    DaysBeforeNextMonth(y, m);
    CivilDate(y, m, doy - DaysBeforeMonth(y, m) + 1)
  }

  /** Every valid calendar date is the date of exactly one day number. */
  lemma ToCivilOfDaysFromCivil(c: CivilDate)
    requires ValidCivil(c)
    ensures ToCivil(DaysFromCivil(c)) == c
  {
    var d := DaysFromCivil(c);
    var c' := ToCivil(d);
    DayOfYearInRange(c);
    DayOfYearInRange(c');
    YearUnique(c.year, c'.year, d);
    MonthUnique(c.year, c.month, c'.month, d - DaysBeforeYear(c.year));
  }

  /** The day of year of a valid date lies within its year, and after the start of its month. */
  lemma DayOfYearInRange(c: CivilDate)
    requires ValidCivil(c)
    ensures var doy := DaysFromCivil(c) - DaysBeforeYear(c.year);
      DaysBeforeMonth(c.year, c.month) <= doy < DaysBeforeMonth(c.year, c.month + 1)
      && DaysBeforeYear(c.year) <= DaysFromCivil(c) < DaysBeforeYear(c.year + 1)
  {
    DaysBeforeNextMonth(c.year, c.month);
    DaysBeforeNextMonth(c.year, 12);
    DaysBeforeMonthIncreasing(c.year, c.month, 13);
    DaysBeforeNextYear(c.year);
  }

  /** Only one year contains a given day. */
  lemma YearUnique(y1: int, y2: int, day: int)
    requires DaysBeforeYear(y1) <= day < DaysBeforeYear(y1 + 1)
    requires DaysBeforeYear(y2) <= day < DaysBeforeYear(y2 + 1)
    ensures y1 == y2
  {
    if y1 < y2 {
      DaysBeforeYearIncreasing(y1, y2);
    } else if y2 < y1 {
      DaysBeforeYearIncreasing(y2, y1);
    }
  }

  /** Only one month of a year contains a given day of that year. */
  lemma MonthUnique(y: int, m1: int, m2: int, doy: int)
    requires 1 <= m1 <= 12 && 1 <= m2 <= 12
    requires DaysBeforeMonth(y, m1) <= doy < DaysBeforeMonth(y, m1 + 1)
    requires DaysBeforeMonth(y, m2) <= doy < DaysBeforeMonth(y, m2 + 1)
    ensures m1 == m2
  {
    if m1 < m2 {
      DaysBeforeMonthIncreasing(y, m1, m2);
    } else if m2 < m1 {
      DaysBeforeMonthIncreasing(y, m2, m1);
    }
  }

  /* ------------------------------------------------------ ISO strings */

  /** The year field of `toISOString()`: four digits, or a sign and six digits outside 0..9999. */
  function IsoYear(y: int): (s: string)
    ensures 0 <= y <= 9999 ==> |s| == 4 && IsDigits(s)
    ensures y < 0 ==> |s| == 7 && s[0] == '-' && IsDigits(s[1..])
    ensures 9999 < y ==> |s| == 7 && s[0] == '+' && IsDigits(s[1..])
  {
    if 0 <= y <= 9999 then PadDigits(y, 4)
    else if y < 0 then "-" + PadDigits(-y, 6)
    else "+" + PadDigits(y, 6)
  }

  /** The date part (before the `T`) of the ISO timestamp of a day's UTC midnight. */
  function IsoDate(day: int): string {
    var c := ToCivil(day);
    IsoYear(c.year) + "-" + PadDigits(c.month as nat, 2) + "-" + PadDigits(c.day as nat, 2)
  }

  /** The ISO date of a day given by its calendar date, field by field. */
  lemma IsoDateOfCivil(c: CivilDate)
    requires ValidCivil(c)
    ensures IsoDate(DaysFromCivil(c))
         == IsoYear(c.year) + "-" + PadDigits(c.month as nat, 2) + "-" + PadDigits(c.day as nat, 2)
  {
    ToCivilOfDaysFromCivil(c);
  }

  /** A day a Date can hold lies in a year of at most six digits, which `IsoYear` renders in full. */
  lemma YearOfRepresentableDay(day: int)
    requires -MaxDay <= day <= MaxDay
    ensures -1_000_000 < ToCivil(day).year < 1_000_000
  {
    var c := ToCivil(day);
    DayOfYearInRange(c);
    if c.year >= 1_000_000 {
      if c.year > 1_000_000 {
        DaysBeforeYearIncreasing(999_999, c.year);
      }
    } else if c.year <= -1_000_000 {
      if c.year < -1_000_000 {
        DaysBeforeYearIncreasing(c.year, -999_999);
      }
    }
  }

  /** Distinct years of at most six digits get distinct ISO year fields. */
  lemma IsoYearInjective(y1: int, y2: int)
    requires -1_000_000 < y1 < 1_000_000 && -1_000_000 < y2 < 1_000_000
    requires IsoYear(y1) == IsoYear(y2)
    ensures y1 == y2
  {
    var s := IsoYear(y1);
    assert Pow10(4) == 10_000 && Pow10(6) == 1_000_000;
    if 0 <= y1 <= 9999 {
      PadDigitsValue(y1, 4);
      PadDigitsValue(y2, 4);
    } else if y1 < 0 {
      assert s[1..] == PadDigits(-y1, 6) == PadDigits(-y2, 6);
      PadDigitsValue(-y1, 6);
      PadDigitsValue(-y2, 6);
    } else {
      assert s[1..] == PadDigits(y1, 6) == PadDigits(y2, 6);
      PadDigitsValue(y1, 6);
      PadDigitsValue(y2, 6);
    }
  }

  /** `year-mm-dd` with two-character month and day fields determines its three fields. */
  lemma IsoFieldsUnique(y1: string, m1: string, d1: string, y2: string, m2: string, d2: string)
    requires |m1| == |m2| == |d1| == |d2| == 2
    requires y1 + "-" + m1 + "-" + d1 == y2 + "-" + m2 + "-" + d2
    ensures y1 == y2 && m1 == m2 && d1 == d2
  {
    var s := y1 + "-" + m1 + "-" + d1;
    var t := y2 + "-" + m2 + "-" + d2;
    assert |y1| == |s| - 6 == |y2|;
    assert s[..|y1|] == y1 && t[..|y2|] == y2;
    assert s[|y1| + 1..|y1| + 3] == m1 && t[|y2| + 1..|y2| + 3] == m2;
    assert s[|y1| + 4..] == d1 && t[|y2| + 4..] == d2;
  }

  /** Distinct days a Date can hold get distinct ISO dates, so a chart-week key names one day. */
  lemma IsoDateInjective(a: int, b: int)
    requires -MaxDay <= a <= MaxDay && -MaxDay <= b <= MaxDay
    requires IsoDate(a) == IsoDate(b)
    ensures a == b
  {
    var ca := ToCivil(a);
    var cb := ToCivil(b);
    var ma, da := PadDigits(ca.month as nat, 2), PadDigits(ca.day as nat, 2);
    var mb, db := PadDigits(cb.month as nat, 2), PadDigits(cb.day as nat, 2);
    IsoFieldsUnique(IsoYear(ca.year), ma, da, IsoYear(cb.year), mb, db);
    YearOfRepresentableDay(a);
    YearOfRepresentableDay(b);
    IsoYearInjective(ca.year, cb.year);
    TwoDigitFieldInjective(ca.month as nat, cb.month as nat);
    TwoDigitFieldInjective(ca.day as nat, cb.day as nat);
  }

  /** Month and day numbers below 100 are told apart by their two-digit fields. */
  lemma TwoDigitFieldInjective(x: nat, y: nat)
    requires x < 100 && y < 100 && PadDigits(x, 2) == PadDigits(y, 2)
    ensures x == y
  {
    assert Pow10(2) == 100;
    PadDigitsValue(x, 2);
    PadDigitsValue(y, 2);
  }

  /** 2024-03-02 and 2024-03-09 are Saturdays, 2024-03-04 a Monday. */
  lemma WeekdaysOfMarch2024()
    ensures Weekday(19784) == Saturday && Weekday(19786) == 1 && Weekday(19791) == Saturday
  {
  }

  /** Day 19784 is 2024-03-02. */
  lemma IsoDateOf20240302(day: int)
    requires day == 19784
    ensures IsoDate(day) == "2024-03-02"
  {
    assert DaysFromCivil(CivilDate(2024, 3, 2)) == day;
    IsoDateOfCivil(CivilDate(2024, 3, 2));
    IsoText20240302();
  }

  lemma IsoText20240302()
    ensures IsoYear(2024) + "-" + PadDigits(3, 2) + "-" + PadDigits(2, 2) == "2024-03-02"
  {
    assert IsoYear(2024) == "2024" && PadDigits(3, 2) == "03" && PadDigits(2, 2) == "02";
  }

  /** Day 19786 is 2024-03-04. */
  lemma IsoDateOf20240304(day: int)
    requires day == 19786
    ensures IsoDate(day) == "2024-03-04"
  {
    assert DaysFromCivil(CivilDate(2024, 3, 4)) == day;
    IsoDateOfCivil(CivilDate(2024, 3, 4));
    IsoText20240304();
  }

  lemma IsoText20240304()
    ensures IsoYear(2024) + "-" + PadDigits(3, 2) + "-" + PadDigits(4, 2) == "2024-03-04"
  {
    assert IsoYear(2024) == "2024" && PadDigits(3, 2) == "03" && PadDigits(4, 2) == "04";
  }

  /** Day 19791 is 2024-03-09. */
  lemma IsoDateOf20240309(day: int)
    requires day == 19791
    ensures IsoDate(day) == "2024-03-09"
  {
    assert DaysFromCivil(CivilDate(2024, 3, 9)) == day;
    IsoDateOfCivil(CivilDate(2024, 3, 9));
    IsoText20240309();
  }

  lemma IsoText20240309()
    ensures IsoYear(2024) + "-" + PadDigits(3, 2) + "-" + PadDigits(9, 2) == "2024-03-09"
  {
    assert IsoYear(2024) == "2024" && PadDigits(3, 2) == "03" && PadDigits(9, 2) == "09";
  }

  /** The last day of year -1 is printed with a signed six-digit year. */
  lemma NegativeYearIsoDate(day: int)
    requires day == -719529
    ensures IsoDate(day) == "-000001-12-31"
  {
    assert DaysFromCivil(CivilDate(-1, 12, 31)) == day;
    IsoDateOfCivil(CivilDate(-1, 12, 31));
    IsoTextMinus00000101231();
  }

  lemma IsoTextMinus00000101231()
    ensures IsoYear(-1) + "-" + PadDigits(12, 2) + "-" + PadDigits(31, 2) == "-000001-12-31"
  {
    assert IsoYear(-1) == "-000001" && PadDigits(12, 2) == "12" && PadDigits(31, 2) == "31";
  }
}
