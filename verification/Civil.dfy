/** The build date: day counts since 1970-01-01 as Gregorian dates. */
module Civil {
  datatype Date = Date(year: int, month: int, day: int)

  // ---- The Gregorian calendar (section 5.7 and Appendix C of RFC 3339) ----

  predicate IsLeap(year: int) {
    year % 4 == 0 && (year % 100 != 0 || year % 400 == 0)
  }

  function DaysInMonth(year: int, month: int): int {
    if month == 2 then (if IsLeap(year) then 29 else 28)
    else if month == 4 || month == 6 || month == 9 || month == 11 then 30
    else 31
  }

  predicate IsValid(date: Date) {
    1 <= date.month <= 12 && 1 <= date.day <= DaysInMonth(date.year, date.month)
  }

  function Tomorrow(date: Date): Date {
    if date.day < DaysInMonth(date.year, date.month) then date.(day := date.day + 1)
    else if date.month < 12 then Date(date.year, date.month + 1, 1)
    else Date(date.year + 1, 1, 1)
  }

  // ---- The shipped computation ----

  /** Division as the source's `/` on `i64`: towards zero. */
  function Quotient(a: int, b: int): int
    requires b > 0
  {
    if a >= 0 then a / b else -(-a / b)
  }

  function YearOfEra(doe: int): int {
    (doe - doe / 1460 + doe / 36524 - doe / 146096) / 365
  }

  /** Day `doy` of the year that begins on the first of March of `year`. */
  function MarchDate(year: int, doy: int): Date {
    var mp := (5 * doy + 2) / 153;
    var d := doy - (153 * mp + 2) / 5 + 1;
    var m := if mp < 10 then mp + 3 else mp - 9;
    Date(year + if m <= 2 then 1 else 0, m, d)
  }

  /** Day `doe` of the 400-year era `era`. */
  function CivilOfEra(era: int, doe: int): Date {
    var yoe := YearOfEra(doe);
    var doy := doe - (365 * yoe + yoe / 4 - yoe / 100);
    MarchDate(yoe + era * 400, doy)
  }

  function CivilFromDays(days: int): Date {
    var z := days + 719468;
    var era := Quotient(if z >= 0 then z else z - 146096, 146097);
    var doe := z - era * 146097;
    CivilOfEra(era, doe)
  }

  // ---- The way back, by counting years and months ----

  function DaysInYear(year: int): int { if IsLeap(year) then 366 else 365 }

  /** Days from the first of January 1970 to the first of January of `year`. */
  function DaysBeforeYear(year: int): int
    decreases if year >= 1970 then year - 1970 else 1970 - year
  {
    if year == 1970 then 0
    else if year > 1970 then DaysBeforeYear(year - 1) + DaysInYear(year - 1)
    else DaysBeforeYear(year + 1) - DaysInYear(year)
  }

  function DaysBeforeMonth(year: int, month: int): int
    requires 1 <= month
    decreases month
  {
    if month == 1 then 0 else DaysBeforeMonth(year, month - 1) + DaysInMonth(year, month - 1)
  }

  function DaysFromCivil(date: Date): int
    requires 1 <= date.month
  {
    DaysBeforeYear(date.year) + DaysBeforeMonth(date.year, date.month) + date.day - 1
  }

  // ---- Years ----

  /** Days in the first `yoe` years of an era, each of which begins on the first of March. */
  function EraDays(yoe: int): int { 365 * yoe + yoe / 4 - yoe / 100 + yoe / 400 }

  lemma DivIs(a: int, b: int, k: int, r: int)
    requires b > 0 && a == b * k + r && 0 <= r < b
    ensures a / b == k && a % b == r
  {
    var d := a / b - k;
    MulAtLeast(b, d);
    assert b * d == r - a % b;
  }

  lemma MulAtLeast(b: int, d: int)
    requires b > 0
    ensures d >= 1 ==> b * d >= b
    ensures d <= -1 ==> b * d <= -b
  {
  }

  /** A day of an era is day `u` of year `s` of the four-year cycle `q` of century `c`. */
  lemma DayOfEra(doe: int) returns (c: int, q: int, s: int, u: int)
    requires 0 <= doe < 146096
    ensures 0 <= c <= 3 && 0 <= q <= 24 && 0 <= s <= 3 && 0 <= u <= 365
    ensures doe == 36524 * c + 1461 * q + 365 * s + u
    ensures u == 365 ==> s == 3 && q < 24
  {
    c := doe / 36524;
    var r := doe % 36524;
    q := r / 1461;
    var v := r % 1461;
    s := if v >= 1095 then 3 else v / 365;
    u := v - 365 * s;
  }

  lemma EraDaysAt(c: int, q: int, s: int)
    requires 0 <= c <= 3 && 0 <= q <= 24 && 0 <= s <= 3
    ensures EraDays(100 * c + 4 * q + s) == 36524 * c + 1461 * q + 365 * s
  {
    var y := 100 * c + 4 * q + s;
    DivIs(y, 4, 25 * c + q, s);
    DivIs(y, 100, c, 4 * q + s);
    DivIs(y, 400, 0, y);
  }

  /** The estimate in `YearOfEra` is never off. */
  lemma YearOfEraAt(doe: int, c: int, q: int, s: int, u: int)
    requires 0 <= c <= 3 && 0 <= q <= 24 && 0 <= s <= 3 && 0 <= u <= 365
    requires doe == 36524 * c + 1461 * q + 365 * s + u < 146096
    requires u == 365 ==> s == 3 && q < 24
    ensures YearOfEra(doe) == 100 * c + 4 * q + s
  {
    var rest := 24 * c + q + 365 * s + u;
    var carry := if rest >= 1460 then 1 else 0;
    DivIs(doe, 1460, 25 * c + q + carry, rest - 1460 * carry);
    DivIs(doe, 36524, c, 1461 * q + 365 * s + u);
    DivIs(doe, 146096, 0, doe);
    DivIs(doe - doe / 1460 + doe / 36524 - doe / 146096, 365, 100 * c + 4 * q + s, u - carry);
  }

  lemma NextEraDays(c: int, q: int, s: int)
    requires 0 <= c <= 3 && 0 <= q <= 24 && 0 <= s <= 3
    ensures EraDays(100 * c + 4 * q + s + 1) >= 36524 * c + 1461 * q + 365 * (s + 1)
    ensures s == 3 && q < 24 ==> EraDays(100 * c + 4 * q + s + 1) >= 36524 * c + 1461 * q + 365 * (s + 1) + 1
  {
    var y := 100 * c + 4 * q + s;
    if s < 3 {
      EraDaysAt(c, q, s + 1);
    } else if q < 24 {
      EraDaysAt(c, q + 1, 0);
    } else if c < 3 {
      EraDaysAt(c + 1, 0, 0);
    }
  }

  lemma YearOfEraIs(doe: int)
    requires 0 <= doe < 146097
    ensures var yoe := YearOfEra(doe); 0 <= yoe < 400 && EraDays(yoe) <= doe < EraDays(yoe + 1)
  {
    if doe < 146096 {
      var c, q, s, u := DayOfEra(doe);
      YearOfEraAt(doe, c, q, s, u);
      EraDaysAt(c, q, s);
      NextEraDays(c, q, s);
    }
  }

  lemma QuotientStep(y: int, k: int)
    requires k > 1
    ensures y / k == (y - 1) / k + if y % k == 0 then 1 else 0
  {
    if y % k == 0 {
      DivIs(y - 1, k, y / k - 1, k - 1);
    } else {
      DivIs(y - 1, k, y / k, y % k - 1);
    }
  }

  lemma {:induction false} DaysBeforeYearIs(year: int)
    ensures DaysBeforeYear(year) == 365 * (year - 1970) + (year - 1) / 4 - (year - 1) / 100 + (year - 1) / 400 - 477
    decreases if year >= 1970 then year - 1970 else 1970 - year
  {
    if year > 1970 {
      DaysBeforeYearIs(year - 1);
      LeapCount(year - 1);
    } else if year < 1970 {
      DaysBeforeYearIs(year + 1);
      LeapCount(year);
    }
  }

  lemma LeapCount(year: int)
    ensures year / 4 - year / 100 + year / 400
      == (year - 1) / 4 - (year - 1) / 100 + (year - 1) / 400 + if IsLeap(year) then 1 else 0
  {
    QuotientStep(year, 4);
    QuotientStep(year, 100);
    QuotientStep(year, 400);
  }

  // ---- Months ----

  function LeapDay(year: int): int { if IsLeap(year) then 1 else 0 }

  lemma {:induction false} DaysBeforeMonthIs(year: int, month: int)
    requires 1 <= month <= 12
    ensures DaysBeforeMonth(year, month) ==
      if month <= 2 then 31 * (month - 1) else 59 + LeapDay(year) + (153 * (month - 3) + 2) / 5
    decreases month
  {
    if month > 1 {
      DaysBeforeMonthIs(year, month - 1);
    }
  }

  /** The month counted from March, and what precedes it. */
  lemma MarchMonth(doy: int) returns (mp: int)
    requires 0 <= doy <= 365
    ensures mp == (5 * doy + 2) / 153 && 0 <= mp <= 11
    ensures (153 * mp + 2) / 5 <= doy < (153 * (mp + 1) + 2) / 5
  {
    mp := (5 * doy + 2) / 153;
  }

  // ---- Years counted from March ----

  lemma EraIsFloor(z: int)
    ensures Quotient(if z >= 0 then z else z - 146096, 146097) == z / 146097
  {
    if z < 0 {
      DivIs(146096 - z, 146097, -(z / 146097), 146096 - z % 146097);
    }
  }

  /** The first of March of `year`. */
  lemma FirstOfMarch(year: int)
    ensures DaysBeforeYear(year) + 59 + LeapDay(year) == EraDays(year) - 719468
  {
    DaysBeforeYearIs(year);
    LeapCount(year);
  }

  lemma EraDaysShift(era: int, yoe: int)
    ensures EraDays(400 * era + yoe) == 146097 * era + EraDays(yoe)
  {
    DivIs(400 * era + yoe, 4, 100 * era + yoe / 4, yoe % 4);
    DivIs(400 * era + yoe, 100, 4 * era + yoe / 100, yoe % 100);
    DivIs(400 * era + yoe, 400, era + yoe / 400, yoe % 400);
  }

  lemma LeapShift(era: int, year: int)
    ensures IsLeap(400 * era + year) == IsLeap(year)
  {
    DivIs(400 * era + year, 4, 100 * era + year / 4, year % 4);
    DivIs(400 * era + year, 100, 4 * era + year / 100, year % 100);
    DivIs(400 * era + year, 400, era + year / 400, year % 400);
  }

  lemma DayOfYear(doe: int, yoe: int)
    requires 0 <= yoe < 400 && EraDays(yoe) <= doe < EraDays(yoe + 1)
    ensures EraDays(yoe) == 365 * yoe + yoe / 4 - yoe / 100
    ensures 0 <= doe - EraDays(yoe) < 365 + LeapDay(yoe + 1)
  {
    DivIs(yoe, 400, 0, yoe);
    LeapCount(yoe + 1);
  }

  lemma EraOf(z: int) returns (era: int, doe: int)
    ensures z == 146097 * era + doe && 0 <= doe < 146097
    ensures era == Quotient(if z >= 0 then z else z - 146096, 146097)
  {
    EraIsFloor(z);
    era, doe := z / 146097, z % 146097;
  }

  lemma MarchYear(era: int, doe: int, yoe: int)
    requires 0 <= doe < 146097 && yoe == YearOfEra(doe)
    ensures EraDays(yoe) == 365 * yoe + yoe / 4 - yoe / 100
    ensures 0 <= doe - EraDays(yoe) < 365 + LeapDay(400 * era + yoe + 1)
    ensures EraDays(400 * era + yoe) == 146097 * era + EraDays(yoe)
  {
    YearOfEraIs(doe);
    DayOfYear(doe, yoe);
    EraDaysShift(era, yoe);
    LeapShift(era, yoe + 1);
  }

  lemma MarchMonthLength(year: int, mp: int)
    requires 0 <= mp <= 10
    ensures (153 * (mp + 1) + 2) / 5 - (153 * mp + 2) / 5 == DaysInMonth(year, if mp < 10 then mp + 3 else mp - 9)
  {
  }

  lemma MarchDateCounts(year: int, doy: int)
    requires 0 <= doy < 365 + LeapDay(year + 1)
    ensures IsValid(MarchDate(year, doy))
    ensures DaysFromCivil(MarchDate(year, doy)) == DaysBeforeYear(year) + 59 + LeapDay(year) + doy
  {
    var mp := MarchMonth(doy);
    if mp < 10 {
      MarchMonthLength(year, mp);
      DaysBeforeMonthIs(year, mp + 3);
    } else {
      if mp == 10 {
        MarchMonthLength(year + 1, mp);
      }
      DaysBeforeMonthIs(year + 1, mp - 9);
      NextYear(year);
    }
  }

  lemma NextYear(year: int)
    ensures DaysBeforeYear(year + 1) == DaysBeforeYear(year) + DaysInYear(year)
  {
  }

  lemma CivilOfEraInverse(era: int, doe: int)
    requires 0 <= doe < 146097
    ensures IsValid(CivilOfEra(era, doe))
    ensures DaysFromCivil(CivilOfEra(era, doe)) == 146097 * era + doe - 719468
  {
    var yoe := YearOfEra(doe);
    MarchYear(era, doe, yoe);
    MarchDateCounts(400 * era + yoe, doe - EraDays(yoe));
    FirstOfMarch(400 * era + yoe);
  }

  /** Every day count is a valid date, and counting back from that date gives the count again. */
  lemma CivilFromDaysInverse(days: int)
    ensures IsValid(CivilFromDays(days))
    ensures DaysFromCivil(CivilFromDays(days)) == days
  {
    var era, doe := EraOf(days + 719468);
    CivilOfEraInverse(era, doe);
  }

  // ---- Dates are counted injectively, in calendar order ----

  lemma MonthFits(year: int, month: int)
    requires 1 <= month <= 12
    ensures DaysBeforeMonth(year, month) + DaysInMonth(year, month) <= DaysInYear(year)
    ensures month == 12 ==> DaysBeforeMonth(year, month) + DaysInMonth(year, month) == DaysInYear(year)
    ensures DaysBeforeMonth(year, month) >= 0
  {
    DaysBeforeMonthIs(year, month);
  }

  lemma {:induction false} YearsGrow(a: int, b: int)
    requires a <= b
    ensures DaysBeforeYear(a) <= DaysBeforeYear(b)
    decreases b - a
  {
    if a < b {
      YearsGrow(a, b - 1);
      NextYear(b - 1);
    }
  }

  lemma {:induction false} MonthsGrow(year: int, a: int, b: int)
    requires 1 <= a < b
    ensures DaysBeforeMonth(year, a) + DaysInMonth(year, a) <= DaysBeforeMonth(year, b)
    decreases b - a
  {
    if a < b - 1 {
      MonthsGrow(year, a, b - 1);
    }
  }

  lemma YearOfDate(date: Date)
    requires IsValid(date)
    ensures DaysBeforeYear(date.year) <= DaysFromCivil(date) < DaysBeforeYear(date.year + 1)
  {
    MonthFits(date.year, date.month);
    NextYear(date.year);
  }

  lemma LaterYearCountsMore(a: Date, b: Date)
    requires IsValid(a) && IsValid(b) && a.year < b.year
    ensures DaysFromCivil(a) < DaysFromCivil(b)
  {
    YearOfDate(a);
    YearOfDate(b);
    YearsGrow(a.year + 1, b.year);
  }

  lemma LaterMonthCountsMore(a: Date, b: Date)
    requires IsValid(a) && IsValid(b) && a.year == b.year && a.month < b.month
    ensures DaysFromCivil(a) < DaysFromCivil(b)
  {
    MonthsGrow(a.year, a.month, b.month);
  }

  lemma CountIsInjective(a: Date, b: Date)
    requires IsValid(a) && IsValid(b) && DaysFromCivil(a) == DaysFromCivil(b)
    ensures a == b
  {
    if a.year < b.year {
      LaterYearCountsMore(a, b);
    } else if b.year < a.year {
      LaterYearCountsMore(b, a);
    } else if a.month < b.month {
      LaterMonthCountsMore(a, b);
    } else if b.month < a.month {
      LaterMonthCountsMore(b, a);
    }
  }

  /** Every valid date is the date of its own day count. */
  lemma DaysFromCivilInverse(date: Date)
    requires IsValid(date)
    ensures CivilFromDays(DaysFromCivil(date)) == date
  {
    CivilFromDaysInverse(DaysFromCivil(date));
    CountIsInjective(CivilFromDays(DaysFromCivil(date)), date);
  }

  lemma TomorrowCountsOneMore(date: Date)
    requires IsValid(date)
    ensures IsValid(Tomorrow(date))
    ensures DaysFromCivil(Tomorrow(date)) == DaysFromCivil(date) + 1
  {
    MonthFits(date.year, date.month);
    NextYear(date.year);
  }

  lemma NextDay(date: Date, days: int)
    requires IsValid(date) && DaysFromCivil(date) == days
    ensures CivilFromDays(days + 1) == Tomorrow(date)
  {
    TomorrowCountsOneMore(date);
    DaysFromCivilInverse(Tomorrow(date));
  }

  lemma Epoch()
    ensures CivilFromDays(0) == Date(1970, 1, 1)
  {
    DaysFromCivilInverse(Date(1970, 1, 1));
  }

  /** Day 0 is 1970-01-01, and the next count is always the next day of the calendar. */
  lemma CountsFollowTheCalendar(days: int)
    ensures CivilFromDays(0) == Date(1970, 1, 1)
    ensures CivilFromDays(days + 1) == Tomorrow(CivilFromDays(days))
  {
    Epoch();
    CivilFromDaysInverse(days);
    NextDay(CivilFromDays(days), days);
  }
}
