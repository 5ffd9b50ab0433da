/** The timeline layout engine: where a record's bar sits in the month's
    row of working-day columns (`renderQualificationBar`). Positions are kept
    as whole numbers of columns; the rendered percentages are
    `100 * startOffset / total` and `100 * duration / total`. */
module Layout {
  import opened Wrappers
  import opened Calendar
  import opened Records

  /** A visible bar: its first column, its number of columns, and the number
      of columns of the month. */
  datatype Bar = Bar(startOffset: nat, duration: nat, total: nat)

  predicate Within(d: Day, lo: Day, hi: Day) {
    lo <= d <= hi
  }

  /** How many of `days` fall within `lo..hi`. */
  function CountWithin(days: seq<Day>, lo: Day, hi: Day): (n: nat)
    ensures n <= |days|
    ensures n == 0 <==> forall i :: 0 <= i < |days| ==> !Within(days[i], lo, hi)
  {
    if days == [] then 0
    else CountWithin(days[..|days| - 1], lo, hi) + (if Within(days[|days| - 1], lo, hi) then 1 else 0)
  }

  /** The index of the first of `days` within `lo..hi`, or -1 if there is none. */
  function FirstWithin(days: seq<Day>, lo: Day, hi: Day): (k: int)
    ensures -1 <= k < |days|
    ensures k == -1 <==> forall i :: 0 <= i < |days| ==> !Within(days[i], lo, hi)
    ensures k >= 0 ==> Within(days[k], lo, hi) && forall i :: 0 <= i < k ==> !Within(days[i], lo, hi)
  {
    if days == [] then -1
    else
      var k := FirstWithin(days[..|days| - 1], lo, hi);
      if k >= 0 then k else if Within(days[|days| - 1], lo, hi) then |days| - 1 else -1
  }

  /** The index of the last of `days` within `lo..hi`, or -1 if there is none. */
  function LastWithin(days: seq<Day>, lo: Day, hi: Day): (k: int)
    ensures -1 <= k < |days|
    ensures k == -1 <==> forall i :: 0 <= i < |days| ==> !Within(days[i], lo, hi)
    ensures k >= 0 ==> Within(days[k], lo, hi) && forall i :: k < i < |days| ==> !Within(days[i], lo, hi)
  {
    if days == [] then -1
    else if Within(days[|days| - 1], lo, hi) then |days| - 1
    else LastWithin(days[..|days| - 1], lo, hi)
  }

  /** The record's start, moved forward to the first of the month if earlier. */
  function VisibleStart(q: Qualification, monthStart: Day): Day {
    if q.startDate < monthStart then monthStart else q.startDate
  }

  /** The record's end, moved back to the last of the month if later. */
  function VisibleEnd(q: Qualification, monthEnd: Day): Day {
    if q.endDate > monthEnd then monthEnd else q.endDate
  }

  /** The bar over `workingDays` for the visible range `lo..hi`; no bar when no
      working day falls in it. */
  function BarLayout(workingDays: seq<Day>, lo: Day, hi: Day): Option<Bar> {
    var duration := CountWithin(workingDays, lo, hi);
    if duration == 0 then None
    else Some(Bar(FirstWithin(workingDays, lo, hi), duration, |workingDays|))
  }

  /** The bar of a record in the timeline of `year`-`month`. */
  function BarFor(q: Qualification, year: int, month: MonthOfYear): Option<Bar> {
    BarLayout(WorkingDays(year, month),
              VisibleStart(q, MonthStart(year, month)), VisibleEnd(q, MonthEnd(year, month)))
  }

  // ---------------------------------------------------------------------------
  // The scan

  /** The counting loop of `renderQualificationBar`: one pass over the working
      days, counting those in the visible range and recording the first and
      last matching index (-1 while none has matched). */
  method ScanWorkingDays(workingDays: seq<Day>, visibleStartDate: Day, visibleEndDate: Day)
    returns (durationDays: nat, startOffsetDays: int, endOffsetDays: int)
    ensures durationDays == CountWithin(workingDays, visibleStartDate, visibleEndDate)
    ensures startOffsetDays == FirstWithin(workingDays, visibleStartDate, visibleEndDate)
    ensures endOffsetDays == LastWithin(workingDays, visibleStartDate, visibleEndDate)
  {
    durationDays, startOffsetDays, endOffsetDays := 0, -1, -1;
    var i := 0;
    while i < |workingDays|
      invariant 0 <= i <= |workingDays|
      invariant durationDays == CountWithin(workingDays[..i], visibleStartDate, visibleEndDate)
      invariant startOffsetDays == FirstWithin(workingDays[..i], visibleStartDate, visibleEndDate)
      invariant endOffsetDays == LastWithin(workingDays[..i], visibleStartDate, visibleEndDate)
    {
      assert workingDays[..i + 1][..i] == workingDays[..i];
      var wd := workingDays[i];
      if wd >= visibleStartDate && wd <= visibleEndDate {
        if startOffsetDays == -1 {
          startOffsetDays := i;
        }
        endOffsetDays := i;
        durationDays := durationDays + 1;
      }
      i := i + 1;
    }
    assert workingDays[..i] == workingDays;
  }

  /** `renderQualificationBar` without the markup: clip the record to the
      month, scan the month's working days, and place the bar, or none when
      the count is zero. */
  method RenderQualificationBar(q: Qualification, year: int, month: MonthOfYear) returns (bar: Option<Bar>)
    ensures bar == BarFor(q, year, month)
    ensures bar.Some? ==> 0 < bar.value.duration && bar.value.startOffset + bar.value.duration <= bar.value.total
  {
    var workingDays, dayLabels := GetWorkingDays(year, month);
    var monthStart := MonthStart(year, month);
    var monthEnd := MonthEnd(year, month);
    var visibleStartDate := if q.startDate < monthStart then monthStart else q.startDate;
    var visibleEndDate := if q.endDate > monthEnd then monthEnd else q.endDate;
    var durationDays, startOffsetDays, endOffsetDays := ScanWorkingDays(workingDays, visibleStartDate, visibleEndDate);
    if durationDays == 0 {
      return None;
    }
    var totalWorkingDays := |workingDays|;
    bar := Some(Bar(startOffsetDays, durationDays, totalWorkingDays));
    BarForSpec(q, year, month);
  }

  // ---------------------------------------------------------------------------
  // What the layout means

  lemma {:induction false} CountConcat(a: seq<Day>, b: seq<Day>, lo: Day, hi: Day)
    ensures CountWithin(a + b, lo, hi) == CountWithin(a, lo, hi) + CountWithin(b, lo, hi)
    decreases |b|
  {
    if b == [] {
      assert a + b == a;
    } else {
      var b' := b[..|b| - 1];
      assert (a + b)[..|a + b| - 1] == a + b';
      CountConcat(a, b', lo, hi);
    }
  }

  lemma {:induction false} CountAllWithin(s: seq<Day>, lo: Day, hi: Day)
    requires forall i :: 0 <= i < |s| ==> Within(s[i], lo, hi)
    ensures CountWithin(s, lo, hi) == |s|
  {
    if s != [] {
      CountAllWithin(s[..|s| - 1], lo, hi);
    }
  }

  /** Splitting the working days of `ms..me` around an inner range `lo..hi`:
      before it, inside it, after it. */
  lemma RangeSplit(ms: Day, me: Day, lo: Day, hi: Day)
    requires ms <= lo <= hi <= me
    ensures WeekdaysBetween(ms, me) ==
              WeekdaysBetween(ms, lo - 1) + WeekdaysBetween(lo, hi) + WeekdaysBetween(hi + 1, me)
  {
    WeekdaysSplit(ms, lo, me);
    WeekdaysSplit(lo, hi + 1, me);
  }

  /** Which columns of `ms..me` fall within an inner range `lo..hi`: a
      contiguous block that starts after the working days before `lo` and is
      as long as the working days of `lo..hi`. */
  lemma RangeColumns(ms: Day, me: Day, lo: Day, hi: Day)
    requires ms <= lo && hi <= me
    ensures |WeekdaysBetween(lo, hi)| > 0 ==>
              |WeekdaysBetween(ms, lo - 1)| + |WeekdaysBetween(lo, hi)| <= |WeekdaysBetween(ms, me)|
    ensures forall i :: 0 <= i < |WeekdaysBetween(ms, me)| ==>
              (Within(WeekdaysBetween(ms, me)[i], lo, hi) <==>
               |WeekdaysBetween(ms, lo - 1)| <= i < |WeekdaysBetween(ms, lo - 1)| + |WeekdaysBetween(lo, hi)|)
  {
    var days := WeekdaysBetween(ms, me);
    WeekdaysAscending(ms, me);
    if lo > hi {
      assert WeekdaysBetween(lo, hi) == [];
    } else {
      RangeSplit(ms, me, lo, hi);
      var a, b, c := WeekdaysBetween(ms, lo - 1), WeekdaysBetween(lo, hi), WeekdaysBetween(hi + 1, me);
      WeekdaysAscending(ms, lo - 1);
      WeekdaysAscending(lo, hi);
      WeekdaysAscending(hi + 1, me);
      forall i | 0 <= i < |days|
        ensures Within(days[i], lo, hi) <==> |a| <= i < |a| + |b|
      {
        if i < |a| {
          assert days[i] == a[i];
        } else if i < |a| + |b| {
          assert days[i] == b[i - |a|];
        } else {
          assert days[i] == c[i - |a| - |b|];
        }
      }
    }
  }

  /** The layout over the working days of `ms..me` of an inner range is
      placed by counting working days. */
  lemma RangeLayout(ms: Day, me: Day, lo: Day, hi: Day)
    requires ms <= lo && hi <= me
    ensures BarLayout(WeekdaysBetween(ms, me), lo, hi) ==
              if |WeekdaysBetween(lo, hi)| == 0 then None
              else Some(Bar(|WeekdaysBetween(ms, lo - 1)|, |WeekdaysBetween(lo, hi)|, |WeekdaysBetween(ms, me)|))
  {
    var days := WeekdaysBetween(ms, me);
    var before, inside := |WeekdaysBetween(ms, lo - 1)|, |WeekdaysBetween(lo, hi)|;
    RangeColumns(ms, me, lo, hi);
    if inside == 0 {
      assert CountWithin(days, lo, hi) == 0;
    } else {
      var k := FirstWithin(days, lo, hi);
      assert Within(days[before], lo, hi);
      assert k == before;
      RangeSplit(ms, me, lo, hi);
      var a, b, c := WeekdaysBetween(ms, lo - 1), WeekdaysBetween(lo, hi), WeekdaysBetween(hi + 1, me);
      CountConcat(a + b, c, lo, hi);
      CountConcat(a, b, lo, hi);
      WeekdaysAscending(ms, lo - 1);
      WeekdaysAscending(lo, hi);
      WeekdaysAscending(hi + 1, me);
      CountAllWithin(b, lo, hi);
      assert CountWithin(a, lo, hi) == 0;
      assert CountWithin(c, lo, hi) == 0;
    }
  }

  /** The bar is what counting working days gives: it starts after as many
      columns as there are working days in the month before the visible start,
      it is as wide as the number of working days in the visible range, and
      the month has as many columns as working days. */
  lemma BarMeasures(q: Qualification, year: int, month: MonthOfYear)
    ensures var ms, me := MonthStart(year, month), MonthEnd(year, month);
      var lo, hi := VisibleStart(q, ms), VisibleEnd(q, me);
      BarFor(q, year, month) ==
        if |WeekdaysBetween(lo, hi)| == 0 then None
        else Some(Bar(|WeekdaysBetween(ms, lo - 1)|, |WeekdaysBetween(lo, hi)|, |WeekdaysBetween(ms, me)|))
  {
    var ms, me := MonthStart(year, month), MonthEnd(year, month);
    RangeLayout(ms, me, VisibleStart(q, ms), VisibleEnd(q, me));
  }

  /** A bar covers exactly the columns of the working days inside the record's
      date range, it fits in the month, and there is no bar exactly when no
      working day of the month lies in the record's range. */
  lemma BarForSpec(q: Qualification, year: int, month: MonthOfYear)
    ensures var days := WorkingDays(year, month);
      BarFor(q, year, month).None? <==>
        forall i :: 0 <= i < |days| ==> !(q.startDate <= days[i] <= q.endDate)
    ensures var days := WorkingDays(year, month);
      BarFor(q, year, month).Some? ==>
        var bar := BarFor(q, year, month).value;
        bar.total == |days| && 20 <= bar.total <= 23 &&
        0 < bar.duration && bar.startOffset + bar.duration <= bar.total &&
        forall i :: 0 <= i < |days| ==>
          (bar.startOffset <= i < bar.startOffset + bar.duration <==> q.startDate <= days[i] <= q.endDate)
  {
    var ms, me := MonthStart(year, month), MonthEnd(year, month);
    var lo, hi := VisibleStart(q, ms), VisibleEnd(q, me);
    var days := WorkingDays(year, month);
    WorkingDaysPerMonth(year, month);
    WeekdaysAscending(ms, me);
    assert forall i :: 0 <= i < |days| ==> (Within(days[i], lo, hi) <==> q.startDate <= days[i] <= q.endDate);
    RangeColumns(ms, me, lo, hi);
    RangeLayout(ms, me, lo, hi);
  }

  /** The scan's end offset closes the bar: when some working day is in the
      visible range, `endOffsetDays - startOffsetDays + 1 == durationDays`. */
  lemma OffsetsSpanDuration(q: Qualification, year: int, month: MonthOfYear)
    ensures var days := WorkingDays(year, month);
      var lo, hi := VisibleStart(q, MonthStart(year, month)), VisibleEnd(q, MonthEnd(year, month));
      CountWithin(days, lo, hi) > 0 ==>
        LastWithin(days, lo, hi) - FirstWithin(days, lo, hi) + 1 == CountWithin(days, lo, hi)
  {
    var ms, me := MonthStart(year, month), MonthEnd(year, month);
    var lo, hi := VisibleStart(q, ms), VisibleEnd(q, me);
    var days := WeekdaysBetween(ms, me);
    var before, inside := |WeekdaysBetween(ms, lo - 1)|, |WeekdaysBetween(lo, hi)|;
    RangeColumns(ms, me, lo, hi);
    RangeLayout(ms, me, lo, hi);
    if CountWithin(days, lo, hi) > 0 {
      var k := LastWithin(days, lo, hi);
      assert Within(days[before + inside - 1], lo, hi);
      assert k == before + inside - 1;
    }
  }
}
