/** The date and CORS helpers of src/utils.ts. */
module Utils {
  import opened Wrappers
  import opened JsBuiltins
  import opened Calendar

  /* -------------------------------------------------- validateDateFormat */

  /**
   * `validateDateFormat(date)`: exactly three `-`-separated segments, each a
   * number, none negative, month at most 12 and day at most 31. It is not a
   * calendar check: month 0, day 0 and February 31st pass.
   */
  function ValidateDateFormat(date: string): (valid: bool)
    ensures valid ==> Occurrences(date, '-') == 2
  {
    SplitLength(date, '-');
    var segments := Split(date, '-');
    if |segments| != 3 then false
    else
      var year := ToNumber(segments[0]);
      var month := ToNumber(segments[1]);
      var day := ToNumber(segments[2]);
      if year.NaN? || month.NaN? || day.NaN? then false
      else if year.value < 0 || month.value < 0 || day.value < 0 then false
      else if month.value > 12 || day.value > 31 then false
      else true
  }

  lemma DigitsHaveNoHyphen(s: string)
    requires IsDigits(s)
    ensures '-' !in s
  {
  }

  /** `year-month-day` with hyphen-free fields splits back into exactly those fields. */
  lemma SplitThreeFields(year: string, month: string, day: string)
    requires '-' !in year && '-' !in month && '-' !in day
    ensures Split(year + "-" + month + "-" + day, '-') == [year, month, day]
  {
    var parts := [year, month, day];
    assert parts[1..] == [month, day];
    assert parts[1..][1..] == [day];
    assert Join([day], '-') == day;
    assert Join([month, day], '-') == month + "-" + day;
    assert Join(parts, '-') == year + "-" + month + "-" + day;
    SplitOfJoin(parts, '-');
  }

  /**
   * With a hyphen-free year and digit-string month and day, the validator
   * accepts exactly a non-negative numeric year, a month of at most 12 and a
   * day of at most 31.
   */
  lemma ValidateOfFields(year: string, month: string, day: string)
    requires '-' !in year && IsDigits(month) && IsDigits(day)
    ensures ValidateDateFormat(year + "-" + month + "-" + day)
        <==> ToNumber(year).Num? && ToNumber(year).value >= 0
             && DigitsValue(month) <= 12 && DigitsValue(day) <= 31
  {
    DigitsHaveNoHyphen(month);
    DigitsHaveNoHyphen(day);
    SplitThreeFields(year, month, day);
  }

  /** On three digit strings the validator only bounds the month and the day. */
  lemma ValidateDigitTriple(year: string, month: string, day: string)
    requires IsDigits(year) && IsDigits(month) && IsDigits(day)
    ensures ValidateDateFormat(year + "-" + month + "-" + day)
        <==> DigitsValue(month) <= 12 && DigitsValue(day) <= 31
  {
    DigitsHaveNoHyphen(year);
    ValidateOfFields(year, month, day);
  }

  /** The negativity guard never fires: a segment holds no `-`, so it never reads as negative. */
  lemma SegmentsNeverNegative(date: string)
    ensures forall i :: 0 <= i < |Split(date, '-')| ==>
      ToNumber(Split(date, '-')[i]).Num? ==> ToNumber(Split(date, '-')[i]).value >= 0
  {
    var segments := Split(date, '-');
    forall i | 0 <= i < |segments|
      ensures ToNumber(segments[i]).Num? ==> ToNumber(segments[i]).value >= 0
    {
    }
  }

  /** Any segment count other than three is rejected. */
  lemma ValidateNeedsThreeSegments(date: string)
    requires |Split(date, '-')| != 3
    ensures !ValidateDateFormat(date)
  {
  }

  /** A non-numeric segment is rejected. */
  lemma ValidateNeedsNumbers(date: string)
    requires |Split(date, '-')| == 3
    requires exists i :: 0 <= i < 3 && ToNumber(Split(date, '-')[i]).NaN?
    ensures !ValidateDateFormat(date)
  {
  }

  /** February 31st is accepted: the validator is not a calendar check. */
  lemma ValidateAcceptsFebruary31(date: string)
    requires date == "2024-02-31"
    ensures ValidateDateFormat(date)
  {
    assert date == "2024" + "-" + "02" + "-" + "31";
    ValidateDigitTriple("2024", "02", "31");
  }

  /** Month 0 and day 0 are accepted. */
  lemma ValidateAcceptsZeroMonthAndDay(date: string)
    requires date == "2024-00-00"
    ensures ValidateDateFormat(date)
  {
    assert date == "2024" + "-" + "00" + "-" + "00";
    ValidateDigitTriple("2024", "00", "00");
  }

  /** Month 13 is rejected. */
  lemma ValidateRejectsMonth13(date: string)
    requires date == "2024-13-01"
    ensures !ValidateDateFormat(date)
  {
    assert date == "2024" + "-" + "13" + "-" + "01";
    ValidateDigitTriple("2024", "13", "01");
  }

  /** Day 32 is rejected. */
  lemma ValidateRejectsDay32(date: string)
    requires date == "2024-01-32"
    ensures !ValidateDateFormat(date)
  {
    assert date == "2024" + "-" + "01" + "-" + "32";
    ValidateDigitTriple("2024", "01", "32");
  }

  /**
   * The date the handler validates is `IsoDate(day)`; it passes exactly when
   * its year is not negative, because a negative ISO year starts with `-` and
   * splits into four segments.
   */
  lemma IsoDateValidIff(day: int)
    ensures ValidateDateFormat(IsoDate(day)) <==> ToCivil(day).year >= 0
  {
    var c := ToCivil(day);
    if c.year < 0 {
      NegativeYearFieldsInvalid(c);
    } else {
      NonNegativeYearFieldsValid(c);
    }
  }

  /** The ISO rendering of a calendar date with a negative year fails the validator. */
  lemma NegativeYearFieldsInvalid(c: CivilDate)
    requires ValidCivil(c) && c.year < 0
    ensures !ValidateDateFormat(IsoYear(c.year) + "-" + PadDigits(c.month as nat, 2) + "-" + PadDigits(c.day as nat, 2))
  {
    NegativeIsoYearRejected(-c.year, PadDigits(c.month as nat, 2), PadDigits(c.day as nat, 2));
  }

  /** The ISO rendering of a calendar date with a non-negative year passes the validator. */
  lemma NonNegativeYearFieldsValid(c: CivilDate)
    requires ValidCivil(c) && c.year >= 0
    ensures ValidateDateFormat(IsoYear(c.year) + "-" + PadDigits(c.month as nat, 2) + "-" + PadDigits(c.day as nat, 2))
  {
    var month := PadDigits(c.month as nat, 2);
    var dom := PadDigits(c.day as nat, 2);
    PadDigitsValue(c.month as nat, 2);
    PadDigitsValue(c.day as nat, 2);
    IsoYearReadsBack(c.year);
    ValidateOfFields(IsoYear(c.year), month, dom);
  }

  /**
   * A year field from `IsoYear` of a non-negative year is hyphen-free and reads
   * as a non-negative number; for a year of at most six digits, as that year.
   */
  lemma IsoYearReadsBack(y: nat)
    ensures '-' !in IsoYear(y)
    ensures ToNumber(IsoYear(y)).Num? && ToNumber(IsoYear(y)).value >= 0
    ensures y < 1_000_000 ==> ToNumber(IsoYear(y)) == Num(y)
  {
    assert Pow10(4) == 10_000 && Pow10(6) == 1_000_000;
    if y > 9999 {
      var digits := PadDigits(y, 6);
      DigitsHaveNoHyphen(digits);
      assert IsoYear(y) == ['+'] + digits;
      assert IsoYear(y)[1..] == digits;
      if y < 1_000_000 {
        PadDigitsValue(y, 6);
      }
    } else {
      DigitsHaveNoHyphen(PadDigits(y, 4));
      PadDigitsValue(y, 4);
    }
  }

  /** An ISO date with a negative (`-`-signed) year splits into four segments. */
  lemma NegativeIsoYearRejected(y: nat, month: string, day: string)
    requires y > 0 && IsDigits(month) && IsDigits(day)
    ensures !ValidateDateFormat("-" + PadDigits(y, 6) + "-" + month + "-" + day)
  {
    var digits := PadDigits(y, 6);
    DigitsHaveNoHyphen(digits);
    DigitsHaveNoHyphen(month);
    DigitsHaveNoHyphen(day);
    SplitThreeFields(digits, month, day);
    var rest := digits + "-" + month + "-" + day;
    assert "-" + digits + "-" + month + "-" + day == [] + ['-'] + rest;
    SplitPrefix([], rest, '-');
  }

  /* ---------------------------------------------------- getNextDayOfWeek */

  /**
   * `getNextDayOfWeek(date, dayOfWeek)`: the first day on or after `day` that
   * falls on `dayOfWeek`. The number of days added is taken modulo 7 of a
   * value that is never negative, so JavaScript's truncating `%` and Dafny's agree here.
   */
  function GetNextDayOfWeek(day: int, dayOfWeek: DayOfWeek): (next: int)
    ensures Weekday(next) == dayOfWeek
    ensures day <= next < day + 7
    ensures forall e :: day <= e < next ==> Weekday(e) != dayOfWeek
    ensures next == day <==> Weekday(day) == dayOfWeek
  {
    day + (7 + dayOfWeek - Weekday(day)) % 7
  }

  /** Moving to the next `dayOfWeek` a second time stays put. */
  lemma GetNextDayOfWeekIdempotent(day: int, dayOfWeek: DayOfWeek)
    ensures GetNextDayOfWeek(GetNextDayOfWeek(day, dayOfWeek), dayOfWeek) == GetNextDayOfWeek(day, dayOfWeek)
  {
  }

  /**
   * The next Saturday of a day a Date can hold can be held too: the last
   * representable day (275760-09-13) is itself a Saturday.
   */
  lemma NextSaturdayInRange(day: int)
    requires -MaxDay <= day <= MaxDay
    ensures -MaxDay <= GetNextDayOfWeek(day, Saturday) <= MaxDay
  {
    assert Weekday(MaxDay) == Saturday;
  }

  /* ------------------------------------------------------ getCorsHeaders */

  type Headers = map<string, string>

  const AllowMethods := "Access-Control-Allow-Methods"
  const AllowHeaders := "Access-Control-Allow-Headers"
  const AllowOrigin := "Access-Control-Allow-Origin"

  const BaseHeaders: Headers := map[AllowMethods := "GET, OPTIONS", AllowHeaders := "Content-Type"]

  /** The two environment variables `getCorsHeaders` reads. */
  datatype Env = Env(serverMode: Option<string>, testOrigin: Option<string>)

  /** JavaScript truthiness of an optional string: present and not empty. */
  predicate Truthy(s: Option<string>) {
    s.Some? && s.value != ""
  }

  /** A string option's value when it is truthy, otherwise the empty string. */
  function OrEmpty(s: Option<string>): string {
    if Truthy(s) then s.value else ""
  }

  predicate IsDevelopment(env: Env) {
    env.serverMode == Some("development")
  }

  /**
   * `getCorsHeaders(whitelist, origin)`: the base headers alone without an
   * origin; otherwise base plus an allowed origin (the test origin in
   * development mode, the request's origin when whitelisted), and `undefined`
   * (None) for any other origin.
   */
  function GetCorsHeaders(whitelist: seq<string>, origin: Option<string>, env: Env): (headers: Option<Headers>)
    ensures headers.None? <==> Truthy(origin) && !IsDevelopment(env) && origin.value !in whitelist
    ensures headers.Some? ==>
      forall k :: k in BaseHeaders ==> k in headers.value && headers.value[k] == BaseHeaders[k]
    ensures headers.Some? ==>
      headers.value.Keys == if Truthy(origin) then BaseHeaders.Keys + {AllowOrigin} else BaseHeaders.Keys
    ensures headers.Some? && Truthy(origin) ==>
      headers.value[AllowOrigin] == if IsDevelopment(env) then OrEmpty(env.testOrigin) else origin.value
  {
    if !Truthy(origin) then Some(BaseHeaders)
    else if env.serverMode == Some("development") then Some(BaseHeaders[AllowOrigin := OrEmpty(env.testOrigin)])
    else if BitwiseNot(IndexOf(whitelist, origin.value)) != 0 then Some(BaseHeaders[AllowOrigin := origin.value])
    else None
  }

  /** Outside development mode an origin is echoed back only if it is whitelisted. */
  lemma CorsEchoesOnlyWhitelisted(whitelist: seq<string>, origin: string, env: Env)
    requires !IsDevelopment(env)
    requires GetCorsHeaders(whitelist, Some(origin), env).Some?
    requires AllowOrigin in GetCorsHeaders(whitelist, Some(origin), env).value
    ensures origin in whitelist
    ensures GetCorsHeaders(whitelist, Some(origin), env).value[AllowOrigin] == origin
  {
  }
}
