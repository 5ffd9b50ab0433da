/** The timeline of September 2024, which starts on a Sunday. */
module Scenarios {
  import opened Wrappers
  import opened Calendar
  import opened Records
  import opened Layout
  import Filtering

  function Sample(startDate: Day, endDate: Day): Qualification {
    Qualification(1, "v2.1.0", "Équipe A", "", startDate, endDate, "simulation légère", "#3B82F6", false)
  }

  lemma September2024Bounds()
    ensures MonthStart(2024, 9) == 19967 && MonthEnd(2024, 9) == 19996
    ensures Weekday(19967) == 0
  {
  }

  lemma September2024Days()
    ensures |WorkingDays(2024, 9)| == 21
  {
    September2024Bounds();
    WeekdaysSplit(19967, 19974, 19996);
    WeekdaysSplit(19974, 19981, 19996);
    WeekdaysSplit(19981, 19988, 19996);
    WeekdaysSplit(19988, 19995, 19996);
    WeekHasFiveWorkingDays(19967);
    WeekHasFiveWorkingDays(19974);
    WeekHasFiveWorkingDays(19981);
    WeekHasFiveWorkingDays(19988);
    assert Weekday(19995) == 0 && Weekday(19996) == 1;
    assert WeekdaysBetween(19995, 19996) == [19996];
  }

  /** 2024-09-15 (a Sunday) to 2024-09-25: the bar starts at column 10
      (after the first two weeks) and spans 16-20 and 23-25 September. */
  lemma MidMonthBar()
    ensures BarFor(Sample(19981, 19991), 2024, 9) == Some(Bar(10, 8, 21))
  {
    September2024Bounds();
    September2024Days();
    BarMeasures(Sample(19981, 19991), 2024, 9);
    FirstTwoWeeks();
    ThirdWeekToWednesday();
  }

  lemma FirstTwoWeeks()
    ensures |WeekdaysBetween(19967, 19980)| == 10
  {
    WeekdaysSplit(19967, 19974, 19980);
    WeekHasFiveWorkingDays(19967);
    WeekHasFiveWorkingDays(19974);
  }

  lemma ThirdWeekToWednesday()
    ensures |WeekdaysBetween(19981, 19991)| == 8
  {
    WeekdaysSplit(19981, 19988, 19991);
    WeekHasFiveWorkingDays(19981);
    assert Weekday(19988) == 0 && Weekday(19989) == 1 && Weekday(19990) == 2 && Weekday(19991) == 3;
    assert WeekdaysBetween(19988, 19991) == [19989, 19990, 19991];
  }

  /** Saturday 14 and Sunday 15 September: no working day, no bar. */
  lemma WeekendOnlyHasNoBar()
    ensures BarFor(Sample(19980, 19981), 2024, 9) == None
  {
    September2024Bounds();
    BarMeasures(Sample(19980, 19981), 2024, 9);
    assert Weekday(19980) == 6 && Weekday(19981) == 0;
    assert WeekdaysBetween(19980, 19981) == [];
  }

  /** 2024-08-20 to 2024-10-05 is clipped to the whole of September. */
  lemma ClippedToWholeMonth()
    ensures BarFor(Sample(19955, 20001), 2024, 9) == Some(Bar(0, 21, 21))
  {
    September2024Bounds();
    September2024Days();
    BarMeasures(Sample(19955, 20001), 2024, 9);
  }

  /** A record in October has no bar in September. */
  lemma NextMonthHasNoBar()
    ensures BarFor(Sample(19997, 20010), 2024, 9) == None
  {
    September2024Bounds();
    BarMeasures(Sample(19997, 20010), 2024, 9);
  }

  /** The search box ignores case, accented capitals included: "ÉQUIPE b"
      finds the records of team "Équipe B". */
  lemma SearchIgnoresCase()
    ensures Filtering.MatchesSearch(Qualification(2, "v2.2.0", "Équipe B", "", 19972, 19997,
                                                  "simulation lourde", "#10B981", false), "ÉQUIPE b")
  {
    assert Filtering.ToLower("Équipe B") == "équipe b";
    assert Filtering.ToLower("ÉQUIPE b") == "équipe b";
    assert Filtering.OccursAt("équipe b", "équipe b", 0);
  }
}
