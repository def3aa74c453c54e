/**
 * Calendar dates and their day numbers, as the `Date.UTC` and `getUTC…` calls of packages/rules/src/schedule.ts
 * compute them (section 21.4.1 of ECMA-262): proleptic Gregorian, day 0 being 1970-01-01.
 */
module Calendar {
  import opened Arithmetic

  datatype Date = Date(year: int, month: int, day: int)

  datatype Weekday = Sunday | Monday | Tuesday | Wednesday | Thursday | Friday | Saturday

  predicate Leap(year: int) {
    year % 4 == 0 && (year % 100 == 0 ==> year % 400 == 0)
  }

  function YearLength(year: int): int {
    if Leap(year) then 366 else 365
  }

  function MonthLength(year: int, month: int): int {
    if month == 2 then (if Leap(year) then 29 else 28)
    else if month == 4 || month == 6 || month == 9 || month == 11 then 30
    else 31
  }

  /** A date that a calendar has. */
  predicate Real(date: Date) {
    1 <= date.month <= 12 && 1 <= date.day <= MonthLength(date.year, date.month)
  }

  /** The day a calendar turns to next. */
  function NextPage(date: Date): Date {
    if date.day < MonthLength(date.year, date.month) then date.(day := date.day + 1)
    else if date.month < 12 then Date(date.year, date.month + 1, 1)
    else Date(date.year + 1, 1, 1)
  }

  predicate Earlier(a: Date, b: Date) {
    a.year < b.year || (a.year == b.year && (a.month < b.month || (a.month == b.month && a.day < b.day)))
  }

  // ----- what Date.UTC does -----

  function DaysBeforeYear(year: int): int {
    365 * (year - 1970) + (year - 1969) / 4 - (year - 1901) / 100 + (year - 1601) / 400
  }

  const DAYS_BEFORE_MONTH := [0, 31, 59, 90, 120, 151, 181, 212, 243, 273, 304, 334, 365]

  function DaysBeforeMonth(year: int, month: int): int
    requires 1 <= month <= 13
  {
    DAYS_BEFORE_MONTH[month - 1] + if Leap(year) && month > 2 then 1 else 0
  }

  /** `Date.UTC(year, month - 1, day)` in days: months and days out of range carry over. */
  function DayNumber(year: int, month: int, day: int): int {
    var carried := year + (month - 1) / 12;
    DaysBeforeYear(carried) + DaysBeforeMonth(carried, (month - 1) % 12 + 1) + day - 1
  }

  function NumberOf(date: Date): int {
    DayNumber(date.year, date.month, date.day)
  }

  lemma YearStep(year: int)
    ensures DaysBeforeYear(year + 1) == DaysBeforeYear(year) + YearLength(year)
  {
    QuotientSteps(year, 4, 492);
    QuotientSteps(year, 100, 19);
    QuotientSteps(year, 400, 4);
    if year % 400 == 0 {
      MultipleOfAMultiple(year, 100, 4);
    }
    if year % 100 == 0 {
      MultipleOfAMultiple(year, 4, 25);
    }
  }

  lemma YearBegins(year: int)
    ensures DaysBeforeYear(year) < DaysBeforeYear(year + 1)
  {
    YearStep(year);
  }

  /** Years are found by stepping to the one that holds the day. */
  function YearFrom(number: int, year: int): (found: int)
    ensures DaysBeforeYear(found) <= number < DaysBeforeYear(found + 1)
    decreases
      number < DaysBeforeYear(year),
      if number < DaysBeforeYear(year) then DaysBeforeYear(year) - number else number - DaysBeforeYear(year)
  {
    YearBegins(year);
    YearBegins(year - 1);
    if number < DaysBeforeYear(year) then YearFrom(number, year - 1)
    else if DaysBeforeYear(year + 1) <= number then YearFrom(number, year + 1)
    else year
  }

  function MonthFrom(year: int, within: int, month: int): (found: int)
    requires 1 <= month <= 12
    requires DaysBeforeMonth(year, month) <= within < YearLength(year)
    ensures 1 <= found <= 12
    ensures DaysBeforeMonth(year, found) <= within < DaysBeforeMonth(year, found + 1)
    decreases 12 - month
  {
    if within < DaysBeforeMonth(year, month + 1) then month else MonthFrom(year, within, month + 1)
  }

  /** The date a day number stands for: `getUTCFullYear`, `getUTCMonth` and `getUTCDate`. */
  function DateOf(number: int): Date {
    var year := YearFrom(number, 1970);
    YearStep(year);
    var within := number - DaysBeforeYear(year);
    var month := MonthFrom(year, within, 1);
    Date(year, month, within - DaysBeforeMonth(year, month) + 1)
  }

  /** `getUTCDay`; 1970-01-01 was a Thursday. */
  function WeekdayOf(number: int): Weekday {
    [Sunday, Monday, Tuesday, Wednesday, Thursday, Friday, Saturday][(number + 4) % 7]
  }

  // ----- the two are inverse -----

  lemma MonthSpans(year: int, month: int)
    requires 1 <= month <= 12
    ensures DaysBeforeMonth(year, month + 1) == DaysBeforeMonth(year, month) + MonthLength(year, month)
    ensures 0 <= DaysBeforeMonth(year, month) && DaysBeforeMonth(year, month + 1) <= YearLength(year)
  {
  }

  lemma NumberOfReal(date: Date)
    requires 1 <= date.month <= 12
    ensures NumberOf(date) == DaysBeforeYear(date.year) + DaysBeforeMonth(date.year, date.month) + date.day - 1
  {
    assert (date.month - 1) / 12 == 0 && (date.month - 1) % 12 == date.month - 1;
  }

  lemma {:induction false} YearsApart(early: int, late: int)
    requires early <= late
    ensures DaysBeforeYear(early) <= DaysBeforeYear(late)
    decreases late - early
  {
    if early < late {
      YearStep(early);
      YearsApart(early + 1, late);
    }
  }

  /** Every day number is the number of one real date. */
  lemma NumberOfDateOf(number: int)
    ensures Real(DateOf(number)) && NumberOf(DateOf(number)) == number
  {
    var date := DateOf(number);
    MonthSpans(date.year, date.month);
    NumberOfReal(date);
  }

  lemma DayNumberSteps(year: int, month: int, day: int)
    ensures DayNumber(year, month, day + 1) == DayNumber(year, month, day) + 1
  {
  }

  lemma MonthEnds(year: int, month: int)
    requires 1 <= month <= 11
    ensures DayNumber(year, month + 1, 1) == DayNumber(year, month, MonthLength(year, month)) + 1
  {
    NumberOfReal(Date(year, month, MonthLength(year, month)));
    NumberOfReal(Date(year, month + 1, 1));
    MonthSpans(year, month);
  }

  lemma YearEnds(year: int)
    ensures DayNumber(year + 1, 1, 1) == DayNumber(year, 12, 31) + 1
  {
    NumberOfReal(Date(year, 12, 31));
    NumberOfReal(Date(year + 1, 1, 1));
    YearStep(year);
  }

  /** The calendar is followed page by page: the next date has the next number. */
  lemma NextPageIsNextNumber(date: Date)
    requires Real(date)
    ensures Real(NextPage(date)) && NumberOf(NextPage(date)) == NumberOf(date) + 1
  {
    if date.day < MonthLength(date.year, date.month) {
      DayNumberSteps(date.year, date.month, date.day);
    } else if date.month < 12 {
      MonthEnds(date.year, date.month);
    } else {
      YearEnds(date.year);
    }
  }

  lemma {:induction false} MonthsApart(year: int, early: int, late: int)
    requires 1 <= early <= late <= 12
    ensures DaysBeforeMonth(year, early) <= DaysBeforeMonth(year, late)
    decreases late - early
  {
    if early < late {
      MonthSpans(year, early);
      MonthsApart(year, early + 1, late);
    }
  }

  lemma WithinItsYear(date: Date)
    requires Real(date)
    ensures DaysBeforeYear(date.year) <= NumberOf(date) < DaysBeforeYear(date.year + 1)
  {
    NumberOfReal(date);
    MonthSpans(date.year, date.month);
    YearStep(date.year);
  }

  lemma EarlierInTheYear(a: Date, b: Date)
    requires Real(a) && Real(b) && a.year == b.year && Earlier(a, b)
    ensures NumberOf(a) < NumberOf(b)
  {
    NumberOfReal(a);
    NumberOfReal(b);
    if a.month < b.month {
      MonthSpans(a.year, a.month);
      MonthsApart(a.year, a.month + 1, b.month);
    }
  }

  lemma EarlierMeansSmaller(a: Date, b: Date)
    requires Real(a) && Real(b) && Earlier(a, b)
    ensures NumberOf(a) < NumberOf(b)
  {
    if a.year < b.year {
      WithinItsYear(a);
      WithinItsYear(b);
      YearsApart(a.year + 1, b.year);
    } else {
      EarlierInTheYear(a, b);
    }
  }

  /** Dates are ordered as their numbers are, so no two dates share one and the number gives the date back. */
  lemma DateOrderIsNumberOrder(a: Date, b: Date)
    requires Real(a) && Real(b)
    ensures Earlier(a, b) <==> NumberOf(a) < NumberOf(b)
    ensures a == b <==> NumberOf(a) == NumberOf(b)
    ensures DateOf(NumberOf(a)) == a
  {
    NumberOfDateOf(NumberOf(a));
    var back := DateOf(NumberOf(a));
    if Earlier(a, b) { EarlierMeansSmaller(a, b); }
    if Earlier(b, a) { EarlierMeansSmaller(b, a); }
    if Earlier(a, back) { EarlierMeansSmaller(a, back); }
    if Earlier(back, a) { EarlierMeansSmaller(back, a); }
  }

  // ----- the helpers of the schedule -----

  /** `new Date(Date.UTC(year, month, 0)).getUTCDate()`: day 0 of the month after. */
  function DaysInMonth(year: int, month: int): int {
    DateOf(DayNumber(year, month + 1, 0)).day
  }

  function DayAfter(date: Date): Date {
    DateOf(DayNumber(date.year, date.month, date.day + 1))
  }

  lemma DaysInMonthIsItsLength(year: int, month: int)
    requires 1 <= month <= 12
    ensures DaysInMonth(year, month) == MonthLength(year, month)
  {
    var last := Date(year, month, MonthLength(year, month));
    DayNumberSteps(year, month + 1, 0);
    if month < 12 {
      MonthEnds(year, month);
    } else {
      YearEnds(year);
      TheThirteenthMonth(year);
    }
    DateOrderIsNumberOrder(last, last);
  }

  lemma TheThirteenthMonth(year: int)
    ensures DayNumber(year, 13, 0) == DayNumber(year + 1, 1, 0)
  {
  }

  lemma NextNumberIsTheNextPage(date: Date)
    requires Real(date)
    ensures DateOf(NumberOf(date) + 1) == NextPage(date)
  {
    NextPageIsNextNumber(date);
    DateOrderIsNumberOrder(NextPage(date), NextPage(date));
  }

  lemma DayAfterHasTheNextNumber(date: Date, number: int)
    requires number == NumberOf(date) + 1
    ensures DayAfter(date) == DateOf(number)
  {
    DayNumberSteps(date.year, date.month, date.day);
  }

  lemma DayAfterIsTheNextPage(date: Date)
    requires Real(date)
    ensures DayAfter(date) == NextPage(date)
  {
    DayAfterHasTheNextNumber(date, NumberOf(date) + 1);
    NextNumberIsTheNextPage(date);
  }

  // ----- day zero and the week -----

  lemma YearZero(year: int)
    requires year == 1970
    ensures DaysBeforeYear(year) == 0
  {
  }

  /** Days are counted from 1 January 1970. */
  lemma DayZero(date: Date)
    requires date.year == 1970 && date.month == 1 && date.day == 1
    ensures NumberOf(date) == 0
  {
    NumberOfReal(date);
    YearZero(date.year);
  }

  /** A weekday's place in the week, which begins on Sunday. */
  function IndexOf(weekday: Weekday): nat {
    match weekday
    case Sunday => 0
    case Monday => 1
    case Tuesday => 2
    case Wednesday => 3
    case Thursday => 4
    case Friday => 5
    case Saturday => 6
  }

  function DayAfterIn(weekday: Weekday): Weekday {
    match weekday
    case Sunday => Monday
    case Monday => Tuesday
    case Tuesday => Wednesday
    case Wednesday => Thursday
    case Thursday => Friday
    case Friday => Saturday
    case Saturday => Sunday
  }

  /** The week began with a Thursday and has gone on since, and before, a day at a time. */
  lemma WeekGoesOn(number: int)
    ensures WeekdayOf(0) == Thursday
    ensures WeekdayOf(number + 1) == DayAfterIn(WeekdayOf(number))
    ensures IndexOf(WeekdayOf(number)) == (number + 4) % 7
  {
  }
}
