/** The proleptic Gregorian calendar as JavaScript's `Date` sees it, with a
    calendar date represented by its day number, and the month's working-day
    list that heads the timeline. */
module Calendar {

  /** A calendar date: the number of days since 1970-01-01 (negative before it). */
  type Day = int

  /** A month of the year, January being 1 (JavaScript's `getMonth()` plus one). */
  type MonthOfYear = m: int | 1 <= m <= 12 witness 1

  predicate IsLeapYear(year: int) {
    year % 4 == 0 && (year % 100 != 0 || year % 400 == 0)
  }

  function DaysInMonth(year: int, month: MonthOfYear): (n: int)
    ensures 28 <= n <= 31
  {
    if month == 2 then (if IsLeapYear(year) then 29 else 28)
    else if month == 4 || month == 6 || month == 9 || month == 11 then 30
    else 31
  }

  /** Days from 0000-03-01 to March 1st of year `y`: the calendar counted in
      years that start in March, so that the leap day ends the year. */
  function DaysBeforeMarch(y: int): int {
    365 * y + y / 4 - y / 100 + y / 400
  }

  /** The day number of `year`-`month`-`day`; a `day` outside the month
      overflows into the neighbouring months as `new Date(year, month, day)` does. */
  function DayNumber(year: int, month: MonthOfYear, day: int): Day {
    var y := if month <= 2 then year - 1 else year;
    var shifted := if month <= 2 then month + 9 else month - 3;
    DaysBeforeMarch(y) + (153 * shifted + 2) / 5 + day - 1 - 719468
  }

  /** `getDay()`: 0 is Sunday, 1 Monday, ..., 6 Saturday; 1970-01-01 was a Thursday. */
  function Weekday(d: Day): (w: int)
    ensures 0 <= w < 7
  {
    (d + 4) % 7
  }

  /** Monday to Friday. */
  predicate IsWorkingDay(d: Day) {
    1 <= Weekday(d) <= 5
  }

  function MonthStart(year: int, month: MonthOfYear): Day {
    DayNumber(year, month, 1)
  }

  /** `new Date(year, month + 1, 0)`: day zero of the next month, that is the
      day before its first. */
  function MonthEnd(year: int, month: MonthOfYear): Day {
    if month == 12 then DayNumber(year + 1, 1, 0) else DayNumber(year, month + 1, 0)
  }

  /** The working days among the days `lo..hi`, in increasing order. */
  function WeekdaysBetween(lo: Day, hi: Day): seq<Day>
    decreases hi - lo + 1
  {
    if hi < lo then [] else WeekdaysBetween(lo, hi - 1) + (if IsWorkingDay(hi) then [hi] else [])
  }

  /** The working days of a month, as the timeline header lists them. */
  function WorkingDays(year: int, month: MonthOfYear): seq<Day> {
    WeekdaysBetween(MonthStart(year, month), MonthEnd(year, month))
  }

  /** The header abbreviation of a day, indexed by `getDay()`. */
  function DayAbbreviation(d: Day): (abbrev: string)
    ensures IsWorkingDay(d) <==> abbrev != "Dim" && abbrev != "Sam"
    ensures Weekday(d) == 1 <==> abbrev == "Lun"
  {
    ["Dim", "Lun", "Mar", "Mer", "Jeu", "Ven", "Sam"][Weekday(d)]
  }

  // ---------------------------------------------------------------------------
  // The calendar itself

  /** The day after the last day of a year counted from March is the first
      day of the next one: a year has 366 days exactly when the February that
      ends it is a leap February. */
  lemma YearLength(y: int)
    ensures DaysBeforeMarch(y + 1) - DaysBeforeMarch(y) == if IsLeapYear(y + 1) then 366 else 365
  {
    assert (y + 1) / 4 - y / 4 == if (y + 1) % 4 == 0 then 1 else 0;
    assert (y + 1) / 100 - y / 100 == if (y + 1) % 100 == 0 then 1 else 0;
    assert (y + 1) / 400 - y / 400 == if (y + 1) % 400 == 0 then 1 else 0;
  }

  /** `lastDay.getDate()` is the table's month length: the day before the
      first of the following month is day `DaysInMonth` of this month, so a
      month's days are the consecutive day numbers `MonthStart..MonthEnd`. */
  lemma MonthsAreContiguous(year: int, month: MonthOfYear)
    ensures MonthEnd(year, month) == DayNumber(year, month, DaysInMonth(year, month))
    ensures MonthEnd(year, month) - MonthStart(year, month) + 1 == DaysInMonth(year, month)
  {
    if month == 2 {
      YearLength(year - 1);
    }
  }

  lemma EpochIsThursday()
    ensures DayNumber(1970, 1, 1) == 0 && Weekday(0) == 4
  {
  }

  // ---------------------------------------------------------------------------
  // Working days

  /** Appending a later stretch of days appends its working days. */
  lemma {:induction false} WeekdaysSplit(lo: Day, mid: Day, hi: Day)
    requires lo <= mid <= hi + 1
    ensures WeekdaysBetween(lo, hi) == WeekdaysBetween(lo, mid - 1) + WeekdaysBetween(mid, hi)
    decreases hi - lo
  {
    if hi >= mid {
      WeekdaysSplit(lo, mid, hi - 1);
    }
  }

  /** The working days between `lo` and `hi` are exactly the Monday-to-Friday
      days in that range. */
  lemma {:induction false} WeekdaysMembership(lo: Day, hi: Day, d: Day)
    ensures d in WeekdaysBetween(lo, hi) <==> lo <= d <= hi && IsWorkingDay(d)
    decreases hi - lo + 1
  {
    if hi >= lo {
      WeekdaysMembership(lo, hi - 1, d);
    }
  }

  /** Each working day appears once, in increasing order, inside the range. */
  lemma {:induction false} WeekdaysAscending(lo: Day, hi: Day)
    ensures forall i, j :: 0 <= i < j < |WeekdaysBetween(lo, hi)| ==>
              WeekdaysBetween(lo, hi)[i] < WeekdaysBetween(lo, hi)[j]
    ensures forall i :: 0 <= i < |WeekdaysBetween(lo, hi)| ==>
              lo <= WeekdaysBetween(lo, hi)[i] <= hi && IsWorkingDay(WeekdaysBetween(lo, hi)[i])
    decreases hi - lo + 1
  {
    if hi >= lo {
      WeekdaysAscending(lo, hi - 1);
    }
  }

  /** The weekday `k` days later, without the modulo. */
  lemma WeekdayShift(d: Day, k: int)
    requires 0 <= k < 7
    ensures Weekday(d + k) == if Weekday(d) + k < 7 then Weekday(d) + k else Weekday(d) + k - 7
  {
    var q := (d + 4) / 7;
    assert d + 4 == 7 * q + Weekday(d);
    if Weekday(d) + k < 7 {
      assert d + k + 4 == 7 * q + (Weekday(d) + k);
    } else {
      assert d + k + 4 == 7 * (q + 1) + (Weekday(d) + k - 7);
    }
  }

  /** Any seven consecutive days hold five working days. */
  lemma WeekHasFiveWorkingDays(lo: Day)
    ensures |WeekdaysBetween(lo, lo + 6)| == 5
  {
    WeekdayShift(lo, 1);
    WeekdayShift(lo, 2);
    WeekdayShift(lo, 3);
    WeekdayShift(lo, 4);
    WeekdayShift(lo, 5);
    WeekdayShift(lo, 6);
    assert |WeekdaysBetween(lo, lo + 6)| == |WeekdaysBetween(lo, lo + 5)| + (if IsWorkingDay(lo + 6) then 1 else 0);
    assert |WeekdaysBetween(lo, lo + 5)| == |WeekdaysBetween(lo, lo + 4)| + (if IsWorkingDay(lo + 5) then 1 else 0);
    assert |WeekdaysBetween(lo, lo + 4)| == |WeekdaysBetween(lo, lo + 3)| + (if IsWorkingDay(lo + 4) then 1 else 0);
    assert |WeekdaysBetween(lo, lo + 3)| == |WeekdaysBetween(lo, lo + 2)| + (if IsWorkingDay(lo + 3) then 1 else 0);
    assert |WeekdaysBetween(lo, lo + 2)| == |WeekdaysBetween(lo, lo + 1)| + (if IsWorkingDay(lo + 2) then 1 else 0);
    assert |WeekdaysBetween(lo, lo + 1)| == |WeekdaysBetween(lo, lo)| + (if IsWorkingDay(lo + 1) then 1 else 0);
    assert |WeekdaysBetween(lo, lo)| == |WeekdaysBetween(lo, lo - 1)| + (if IsWorkingDay(lo) then 1 else 0);
  }

  /** A stretch of `n` days has at most `n` working days. */
  lemma {:induction false} WeekdaysAtMost(lo: Day, hi: Day)
    ensures |WeekdaysBetween(lo, hi)| <= if hi < lo then 0 else hi - lo + 1
    decreases hi - lo + 1
  {
    if hi >= lo {
      WeekdaysAtMost(lo, hi - 1);
    }
  }

  /** A month of 28 to 31 days has between 20 and 23 working days: four full
      weeks plus at most three more. */
  lemma WorkingDaysPerMonth(year: int, month: MonthOfYear)
    ensures 20 <= |WorkingDays(year, month)| <= DaysInMonth(year, month) - 8
  {
    var lo, hi := MonthStart(year, month), MonthEnd(year, month);
    MonthsAreContiguous(year, month);
    WeekdaysSplit(lo, lo + 7, hi);
    WeekdaysSplit(lo + 7, lo + 14, hi);
    WeekdaysSplit(lo + 14, lo + 21, hi);
    WeekdaysSplit(lo + 21, lo + 28, hi);
    WeekHasFiveWorkingDays(lo);
    WeekHasFiveWorkingDays(lo + 7);
    WeekHasFiveWorkingDays(lo + 14);
    WeekHasFiveWorkingDays(lo + 21);
    WeekdaysAtMost(lo + 28, hi);
  }

  /** What the timeline header promises: the month's Monday-to-Friday days,
      each once, in calendar order, 20 to 23 of them. */
  lemma WorkingDaysOfMonth(year: int, month: MonthOfYear)
    ensures forall i, j :: 0 <= i < j < |WorkingDays(year, month)| ==>
              WorkingDays(year, month)[i] < WorkingDays(year, month)[j]
    ensures forall d :: d in WorkingDays(year, month) <==>
              MonthStart(year, month) <= d <= MonthEnd(year, month) && IsWorkingDay(d)
    ensures 20 <= |WorkingDays(year, month)| <= 23
  {
    WeekdaysAscending(MonthStart(year, month), MonthEnd(year, month));
    forall d ensures d in WorkingDays(year, month) <==>
                     MonthStart(year, month) <= d <= MonthEnd(year, month) && IsWorkingDay(d) {
      WeekdaysMembership(MonthStart(year, month), MonthEnd(year, month), d);
    }
    WorkingDaysPerMonth(year, month);
  }

  /** `getWorkingDays`: walks days 1..daysInMonth of the month and keeps
      Monday to Friday; the same list serves as day numbers and day labels. */
  method GetWorkingDays(year: int, month: MonthOfYear) returns (workingDays: seq<Day>, dayLabels: seq<Day>)
    ensures workingDays == WorkingDays(year, month)
    ensures dayLabels == workingDays
  {
    var daysInMonth := DaysInMonth(year, month);
    var first := DayNumber(year, month, 1);
    workingDays, dayLabels := [], [];
    var day := 1;
    while day <= daysInMonth
      invariant 1 <= day <= daysInMonth + 1
      invariant workingDays == WeekdaysBetween(first, first + day - 2)
      invariant dayLabels == workingDays
    {
      var currentDate := DayNumber(year, month, day);
      assert currentDate == first + day - 1;
      var dayOfWeek := Weekday(currentDate);
      if 1 <= dayOfWeek <= 5 {
        workingDays := workingDays + [currentDate];
        dayLabels := dayLabels + [currentDate];
      }
      day := day + 1;
    }
    MonthsAreContiguous(year, month);
  }
}
