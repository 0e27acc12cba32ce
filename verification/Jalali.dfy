/**
 The Jalali calendar on whole Tehran days, numbered from 1 January 1970.

 The original takes the calendar from ICU and only searches it backwards; here the calendar is the
 33-year rule, which agrees with ICU for the years 1300 to 1501.
 */
module Jalali {
  import opened Common

  datatype JalaliDate = JalaliDate(jy: int, jm: int, jd: int)

  datatype CalendarError = BadMonth | BadDay | NoSuchDate | BadQuarter

  // ---------- the calendar ----------

  /** The first day of a Jalali year. */
  function Nowruz(jy: int): int { 365 * jy + (8 * jy + 21) / 33 - 492_633 }

  predicate Leap(jy: int) { Nowruz(jy + 1) - Nowruz(jy) == 366 }

  function MonthDays(jy: int, jm: int): int {
    if jm <= 6 then 31 else if jm <= 11 then 30 else if Leap(jy) then 30 else 29
  }

  predicate Exists(j: JalaliDate) { 1 <= j.jm <= 12 && 1 <= j.jd <= MonthDays(j.jy, j.jm) }

  const DAYS_BEFORE_MONTH := [0, 31, 62, 93, 124, 155, 186, 216, 246, 276, 306, 336]

  function DayOf(j: JalaliDate): int
    requires 1 <= j.jm <= 12
  {
    Nowruz(j.jy) + DAYS_BEFORE_MONTH[j.jm - 1] + j.jd - 1
  }

  function YearOn(day: int): int { (33 * (day - Nowruz(1)) + 3) / 12_053 + 1 }

  function ToJalali(day: int): JalaliDate {
    var jy := YearOn(day);
    var n := day - Nowruz(jy);
    if n < 186 then JalaliDate(jy, n / 31 + 1, n % 31 + 1) else JalaliDate(jy, (n - 186) / 30 + 7, (n - 186) % 30 + 1)
  }

  lemma YearLength(jy: int)
    ensures Nowruz(jy + 1) - Nowruz(jy) == if Leap(jy) then 366 else 365
  {
  }

  /** Eight leap years in thirty-three. */
  lemma ThirtyThreeYearRule(jy: int)
    ensures Leap(jy) <==> jy % 33 in {1, 5, 9, 13, 17, 22, 26, 30}
  {
    var k, r := jy / 33, jy % 33;
    assert (8 * jy + 21) / 33 == 8 * k + (8 * r + 21) / 33;
    assert (8 * (jy + 1) + 21) / 33 == 8 * k + (8 * r + 29) / 33;
  }

  lemma YearBrackets(day: int)
    ensures Nowruz(YearOn(day)) <= day < Nowruz(YearOn(day) + 1)
  {
  }

  lemma {:induction false} NowruzRises(a: int, b: int)
    requires a < b
    ensures Nowruz(a) + 365 <= Nowruz(b)
    decreases b - a
  {
    if a + 1 < b { NowruzRises(a + 1, b); }
  }

  lemma OneYear(day: int, jy: int)
    requires Nowruz(jy) <= day < Nowruz(jy + 1)
    ensures YearOn(day) == jy
  {
    YearBrackets(day);
    if YearOn(day) < jy { NowruzRises(YearOn(day) + 1, jy + 1); }
    if YearOn(day) > jy { NowruzRises(jy + 1, YearOn(day) + 1); }
  }

  /** Every day has a date that exists, and it is that date's day. */
  lemma DateOfDay(day: int)
    ensures Exists(ToJalali(day)) && DayOf(ToJalali(day)) == day
  {
    YearBrackets(day);
    YearLength(YearOn(day));
  }

  /** Every date that exists is the date of its day. */
  lemma DayOfDate(j: JalaliDate)
    requires Exists(j)
    ensures ToJalali(DayOf(j)) == j
  {
    YearLength(j.jy);
    OneYear(DayOf(j), j.jy);
  }

  /** Where the calendar stands: days of the year 2026, at the borders of its quarters and before Nowruz. */
  lemma KnownDays()
    ensures ToJalali(20_532) == JalaliDate(1404, 12, 29) && ToJalali(20_533) == JalaliDate(1405, 1, 1)
    ensures ToJalali(20_625) == JalaliDate(1405, 3, 31) && ToJalali(20_626) == JalaliDate(1405, 4, 1)
    ensures ToJalali(20_698) == JalaliDate(1405, 6, 11)
    ensures ToJalali(20_718) == JalaliDate(1405, 6, 31) && ToJalali(20_719) == JalaliDate(1405, 7, 1)
  {
    hide ToJalali;
    DayOfDate(JalaliDate(1404, 12, 29));
    DayOfDate(JalaliDate(1405, 1, 1));
    DayOfDate(JalaliDate(1405, 3, 31));
    DayOfDate(JalaliDate(1405, 4, 1));
    DayOfDate(JalaliDate(1405, 6, 11));
    DayOfDate(JalaliDate(1405, 6, 31));
    DayOfDate(JalaliDate(1405, 7, 1));
  }

  // ---------- searching the calendar backwards ----------

  /** `Date.UTC` takes the years 0 to 99 for 1900 to 1999. */
  function UtcYear(y: int): int { if 0 <= y <= 99 then 1900 + y else y }

  /** 20 March of a Gregorian year. */
  function March20(y: int): int { 365 * y + y / 4 - y / 100 + y / 400 - 719_449 }

  function Guess(j: JalaliDate): int
    requires 1 <= j.jm <= 12
  {
    March20(UtcYear(j.jy + 621)) + DAYS_BEFORE_MONTH[j.jm - 1] + j.jd - 1
  }

  /** What the search finds from distance `i` on: at each distance the earlier day is tried first. */
  function FindFrom(j: JalaliDate, guess: int, i: nat): Option<int>
    decreases 7 - i
  {
    if i > 6 then None
    else if ToJalali(guess - i) == j then Some(guess - i)
    else if ToJalali(guess + i) == j then Some(guess + i)
    else FindFrom(j, guess, i + 1)
  }

  function FromJalali(jy: int, jm: int, jd: int): Result<int, CalendarError> {
    if jm < 1 || jm > 12 then Err(BadMonth)
    else if jd < 1 || jd > 31 then Err(BadDay)
    else
      var j := JalaliDate(jy, jm, jd);
      match FindFrom(j, Guess(j), 0)
      case None => Err(NoSuchDate)
      case Some(day) => Ok(day)
  }

  /** Guess and correct: up to six days either way. */
  method SearchFromJalali(jy: int, jm: int, jd: int) returns (r: Result<int, CalendarError>)
    ensures r == FromJalali(jy, jm, jd)
  {
    hide ToJalali, March20;
    if jm < 1 || jm > 12 { return Err(BadMonth); }
    if jd < 1 || jd > 31 { return Err(BadDay); }
    var j := JalaliDate(jy, jm, jd);
    var guess := March20(UtcYear(jy + 621)) + DAYS_BEFORE_MONTH[jm - 1] + jd - 1;
    var found: Option<int> := None;
    var i := 0;
    while i <= 6 && found.None?
      invariant 0 <= i <= 7
      invariant FindFrom(j, guess, 0) == if found.Some? then found else FindFrom(j, guess, i)
    {
      if ToJalali(guess - i) == j {
        found := Some(guess - i);
      } else if ToJalali(guess + i) == j {
        found := Some(guess + i);
      }
      i := i + 1;
    }
    r := if found.Some? then Ok(found.value) else Err(NoSuchDate);
  }

  /** The search reaches this year: its first day is at most six days from 20 March. */
  predicate Reachable(jy: int) { -6 <= Nowruz(jy) - March20(UtcYear(jy + 621)) <= 6 }

  lemma {:induction false} FindExactly(j: JalaliDate, guess: int, i: nat)
    requires i <= 7 && forall day :: guess - i < day < guess + i ==> ToJalali(day) != j
    ensures match FindFrom(j, guess, i)
      case None => forall day :: guess - 6 <= day <= guess + 6 ==> ToJalali(day) != j
      case Some(day) => guess - 6 <= day <= guess + 6 && ToJalali(day) == j
    decreases 7 - i
  {
    hide ToJalali;
    if i <= 6 && ToJalali(guess - i) != j && ToJalali(guess + i) != j {
      FindExactly(j, guess, i + 1);
    }
  }

  /** The search succeeds exactly on the dates that exist in the years it reaches, and finds their day. */
  lemma FromJalaliExactly(jy: int, jm: int, jd: int)
    ensures var j := JalaliDate(jy, jm, jd);
      FromJalali(jy, jm, jd) ==
        if jm < 1 || jm > 12 then Err(BadMonth)
        else if jd < 1 || jd > 31 then Err(BadDay)
        else if Exists(j) && Reachable(jy) then Ok(DayOf(j))
        else Err(NoSuchDate)
  {
    hide ToJalali, Nowruz, March20, FindFrom, MonthDays;
    var j := JalaliDate(jy, jm, jd);
    if 1 <= jm <= 12 && 1 <= jd <= 31 {
      FindExactly(j, Guess(j), 0);
      match FindFrom(j, Guess(j), 0) {
        case Some(day) => DateOfDay(day);
        case None => if Exists(j) { DayOfDate(j); }
      }
    }
  }

  const LAST_YEAR := 50_000

  /** The two calendars drift apart by a day in 13,200 years, so the search reaches every year up to 50,000. */
  lemma YearsAreReachable(jy: int)
    requires 1 <= jy <= 50_000
    ensures Reachable(jy)
  {
  }

  /** Both ways round on all days and all dates of the supported years. */
  lemma ConversionsAreInverse(day: int, j: JalaliDate)
    requires 1 <= j.jy <= LAST_YEAR && 1 <= ToJalali(day).jy <= LAST_YEAR
    ensures var d := ToJalali(day); FromJalali(d.jy, d.jm, d.jd) == Ok(day)
    ensures FromJalali(j.jy, j.jm, j.jd) == Ok(day) <==> ToJalali(day) == j
  {
    hide ToJalali, Nowruz, March20, Leap, FindFrom, FromJalali;
    var d := ToJalali(day);
    YearsAreReachable(j.jy);
    YearsAreReachable(d.jy);
    DateOfDay(day);
    FromJalaliExactly(d.jy, d.jm, d.jd);
    FromJalaliExactly(j.jy, j.jm, j.jd);
    if Exists(j) { DayOfDate(j); }
  }

  // ---------- month lengths ----------

  predicate IsLeapJalaliYear(jy: int) {
    match FromJalali(jy, 12, 30)
    case Ok(day) => ToJalali(day).jd == 30
    case Err(_) => false
  }

  function JalaliMonthLength(jy: int, jm: int): int {
    if jm <= 6 then 31 else if jm <= 11 then 30 else if IsLeapJalaliYear(jy) then 30 else 29
  }

  /** Asking whether the last day of a leap year exists is the leap rule. */
  lemma MonthLengthExactly(jy: int, jm: int)
    requires 1 <= jy <= LAST_YEAR
    ensures IsLeapJalaliYear(jy) <==> Leap(jy)
    ensures JalaliMonthLength(jy, jm) == MonthDays(jy, jm)
  {
    hide ToJalali, March20, FindFrom, FromJalali, Nowruz;
    YearsAreReachable(jy);
    FromJalaliExactly(jy, 12, 30);
    if Leap(jy) { DayOfDate(JalaliDate(jy, 12, 30)); }
  }

  // ---------- adding months ----------

  /** JavaScript's `%`: the sign of the dividend. */
  function Remainder(a: int, b: int): int
    requires b > 0
  {
    if a >= 0 then a % b else -(-a % b)
  }

  function AddJalaliMonths(day: int, months: int): Result<int, CalendarError> {
    var d := ToJalali(day);
    var total := d.jy * 12 + (d.jm - 1) + months;
    var ny, nm := total / 12, Remainder(total, 12) + 1;
    FromJalali(ny, nm, Min(d.jd, JalaliMonthLength(ny, nm)))
  }

  /** Months counted from year 0. */
  function IndexOf(d: JalaliDate): int { 12 * d.jy + d.jm - 1 }

  function MonthIndex(day: int): int { IndexOf(ToJalali(day)) }

  function YearOfMonth(index: int): int { index / 12 }

  function LengthOfMonth(index: int): int { MonthDays(index / 12, index % 12 + 1) }

  predicate InCalendar(index: int) { 1 <= YearOfMonth(index) <= LAST_YEAR }

  /** A month lands on the same day, or on the last one of a shorter month; it never fails on a missing day. */
  lemma AddMonthsExactly(day: int, months: int)
    requires InCalendar(MonthIndex(day) + months)
    ensures var r := AddJalaliMonths(day, months);
      && r.Ok? && MonthIndex(r.value) == MonthIndex(day) + months
      && ToJalali(r.value).jd == Min(ToJalali(day).jd, LengthOfMonth(MonthIndex(day) + months))
  {
    hide ToJalali, Nowruz, March20, Leap, FromJalali, IsLeapJalaliYear, Reachable, DayOf;
    var d := ToJalali(day);
    var total := MonthIndex(day) + months;
    var ny, nm := total / 12, total % 12 + 1;
    DateOfDay(day);
    MonthLengthExactly(ny, nm);
    YearsAreReachable(ny);
    var nd := Min(d.jd, MonthDays(ny, nm));
    FromJalaliExactly(ny, nm, nd);
    DayOfDate(JalaliDate(ny, nm, nd));
  }

  /** Whenever a date comes out, in any year at all, it is in the right month and its day has not grown. */
  lemma AddMonthsNeverGrows(day: int, months: int)
    requires AddJalaliMonths(day, months).Ok?
    ensures var r := AddJalaliMonths(day, months).value;
      MonthIndex(r) == MonthIndex(day) + months && ToJalali(r).jd <= ToJalali(day).jd
  {
    hide ToJalali, Nowruz, March20, Leap, FromJalali, IsLeapJalaliYear, Reachable, DayOf;
    var d := ToJalali(day);
    var total := MonthIndex(day) + months;
    var ny, nm := total / 12, Remainder(total, 12) + 1;
    var nd := Min(d.jd, JalaliMonthLength(ny, nm));
    FromJalaliExactly(ny, nm, nd);
    DayOfDate(JalaliDate(ny, nm, nd));
  }

  /** Before year 0 the remainder is not positive: only whole years can be reached. */
  lemma AddMonthsBeforeYearZero(day: int, months: int)
    requires MonthIndex(day) + months < 0 && (MonthIndex(day) + months) % 12 != 0
    ensures AddJalaliMonths(day, months) == Err(BadMonth)
  {
    hide ToJalali, Nowruz, March20, IsLeapJalaliYear, Reachable, DayOf, FindFrom;
  }

  lemma DayFitsMonth(day: int)
    ensures ToJalali(day).jd <= LengthOfMonth(MonthIndex(day))
  {
    hide ToJalali, Leap;
    DateOfDay(day);
  }

  lemma SameMonthSameDay(a: int, b: int)
    requires MonthIndex(a) == MonthIndex(b) && ToJalali(a).jd == ToJalali(b).jd
    ensures a == b
  {
    hide ToJalali, Leap, Nowruz;
    DateOfDay(a);
    DateOfDay(b);
  }

  /** Going some months on and the same number back returns to the day if and only if it was not cut off. */
  lemma AddThenSubtract(day: int, months: int)
    requires InCalendar(MonthIndex(day)) && InCalendar(MonthIndex(day) + months)
    ensures AddJalaliMonths(day, months).Ok?
    ensures AddJalaliMonths(AddJalaliMonths(day, months).value, -months) == Ok(day)
      <==> ToJalali(day).jd <= LengthOfMonth(MonthIndex(day) + months)
  {
    hide ToJalali, AddJalaliMonths, LengthOfMonth, InCalendar, MonthIndex;
    AddMonthsExactly(day, months);
    var there := AddJalaliMonths(day, months).value;
    AddMonthsExactly(there, -months);
    var back := AddJalaliMonths(there, -months).value;
    DayFitsMonth(day);
    if ToJalali(back).jd == ToJalali(day).jd { SameMonthSameDay(back, day); }
  }

  // ---------- quarters ----------

  datatype Range = Range(from: int, to: int) {
    predicate Holds(day: int) { from <= day < to }
  }

  function QuarterRange(jy: int, quarter: int): Result<Range, CalendarError> {
    if quarter < 1 || quarter > 4 then Err(BadQuarter)
    else
      var startMonth := (quarter - 1) * 3 + 1;
      var from := FromJalali(jy, startMonth, 1);
      var to := if quarter == 4 then FromJalali(jy + 1, 1, 1) else FromJalali(jy, startMonth + 3, 1);
      if from.Err? then Err(from.error) else if to.Err? then Err(to.error) else Ok(Range(from.value, to.value))
  }

  /** The year and the quarter a day falls in. */
  function QuarterOf(day: int): (int, int) {
    var d := ToJalali(day); (d.jy, (d.jm - 1) / 3 + 1)
  }

  lemma QuarterRangeIs(jy: int, quarter: int)
    requires 1 <= jy < LAST_YEAR && 1 <= quarter <= 4
    ensures QuarterRange(jy, quarter) ==
      Ok(Range(Nowruz(jy) + DAYS_BEFORE_MONTH[3 * (quarter - 1)],
               if quarter == 4 then Nowruz(jy + 1) else Nowruz(jy) + DAYS_BEFORE_MONTH[3 * quarter]))
  {
    hide ToJalali, March20, Reachable, FromJalali, Leap, Nowruz;
    YearsAreReachable(jy);
    YearsAreReachable(jy + 1);
    FromJalaliExactly(jy, 3 * (quarter - 1) + 1, 1);
    if quarter == 4 { FromJalaliExactly(jy + 1, 1, 1); } else { FromJalaliExactly(jy, 3 * quarter + 1, 1); }
  }

  lemma BadQuarters(jy: int, quarter: int)
    ensures QuarterRange(jy, quarter) == Err(BadQuarter) <==> quarter < 1 || quarter > 4
  {
    hide FindFrom, ToJalali, Guess;
  }

  /**
   There are four quarters, and a day is in a quarter's half-open range if and only if that is the
   quarter it is said to be in.
   */
  lemma QuarterHoldsItsDays(jy: int, quarter: int, day: int)
    requires 1 <= jy < LAST_YEAR
    ensures QuarterRange(jy, quarter) == Err(BadQuarter) <==> !(1 <= quarter <= 4)
    ensures 1 <= quarter <= 4 ==>
      QuarterRange(jy, quarter).Ok?
      && (QuarterRange(jy, quarter).value.Holds(day) <==> QuarterOf(day) == (jy, quarter))
  {
    hide March20, Reachable, FromJalali, FindFrom, QuarterRange;
    BadQuarters(jy, quarter);
    if !(1 <= quarter <= 4) { return; }
    QuarterRangeIs(jy, quarter);
    YearLength(jy);
    DateOfDay(day);
    if QuarterRange(jy, quarter).value.Holds(day) { OneYear(day, jy); }
  }

  /** The four quarters follow on from each other without a gap, from one Nowruz to the next. */
  lemma QuartersTile(jy: int)
    requires 1 <= jy < LAST_YEAR
    ensures forall q :: 1 <= q <= 4 ==>
      QuarterRange(jy, q).Ok? && QuarterRange(jy, q).value.from < QuarterRange(jy, q).value.to
    ensures forall q :: 1 <= q <= 3 ==> QuarterRange(jy, q).value.to == QuarterRange(jy, q + 1).value.from
    ensures QuarterRange(jy, 1).value.from == Nowruz(jy) && QuarterRange(jy, 4).value.to == Nowruz(jy + 1)
  {
    hide ToJalali, March20, Reachable, FromJalali, FindFrom, QuarterRange, Nowruz;
    YearLength(jy);
    QuarterRangeIs(jy, 1);
    QuarterRangeIs(jy, 2);
    QuarterRangeIs(jy, 3);
    QuarterRangeIs(jy, 4);
  }
}
