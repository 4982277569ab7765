/**
 * The archive aggregator and the day selector: one pass over the billing rows keeps
 * a running total and per-day totals, and the "last complete day" is then chosen
 * from the days seen.
 */
module Aggregation {
  import opened Options
  import opened LexOrder
  import opened Text
  import opened Metric

  /** The column holding a row's usage start timestamp, e.g. `2025-09-01T00:00:00Z`. */
  const UsageStartField := "lineItem/UsageStartDate"

  /**
   * The day a row is booked on: its usage start up to the first `T`. Rows whose
   * usage start is missing or empty are booked on no day.
   */
  function DayKey(row: Row): (d: Option<string>)
    ensures d.Some? <==> UsageStartField in row && row[UsageStartField] != ""
    ensures d.Some? ==> var start := row[UsageStartField];
                        d.value <= start && 'T' !in d.value
                        && (|d.value| < |start| ==> start[|d.value|] == 'T')
  {
    if UsageStartField in row && row[UsageStartField] != "" then
      Some(BeforeFirst(row[UsageStartField], 'T'))
    else None
  }

  /** The sum of the metric over all rows. */
  function TotalSpend(rows: seq<Row>, metricName: string, parse: NumberParser): real
    decreases |rows|
  {
    if rows == [] then 0.0
    else TotalSpend(rows[..|rows| - 1], metricName, parse)
         + GetMetricValue(rows[|rows| - 1], metricName, parse)
  }

  /** The sum of the metric over the rows booked on `day`. */
  function DaySum(rows: seq<Row>, day: string, metricName: string, parse: NumberParser): real
    decreases |rows|
  {
    if rows == [] then 0.0
    else
      var last := rows[|rows| - 1];
      DaySum(rows[..|rows| - 1], day, metricName, parse)
      + (if DayKey(last) == Some(day) then GetMetricValue(last, metricName, parse) else 0.0)
  }

  /** Books one row's value on its day, starting the day at 0 when it is new. */
  function AddToDay(totals: map<string, real>, row: Row, val: real): map<string, real> {
    match DayKey(row)
    case None => totals
    case Some(day) => totals[day := (if day in totals then totals[day] else 0.0) + val]
  }

  /** The per-day totals the aggregation loop has built after seeing `rows`. */
  function DailyTotals(rows: seq<Row>, metricName: string, parse: NumberParser): map<string, real>
    decreases |rows|
  {
    if rows == [] then map[]
    else
      var last := rows[|rows| - 1];
      AddToDay(DailyTotals(rows[..|rows| - 1], metricName, parse), last, GetMetricValue(last, metricName, parse))
  }

  /**
   * The days of the totals are exactly the days rows are booked on, and each
   * day's total is the sum over the rows booked on it.
   */
  lemma {:induction false} DailyTotalsAreDaySums(rows: seq<Row>, metricName: string, parse: NumberParser)
    ensures forall day :: day in DailyTotals(rows, metricName, parse)
                          <==> exists i :: 0 <= i < |rows| && DayKey(rows[i]) == Some(day)
    ensures forall day :: day in DailyTotals(rows, metricName, parse)
                          ==> DailyTotals(rows, metricName, parse)[day] == DaySum(rows, day, metricName, parse)
    ensures forall day :: day !in DailyTotals(rows, metricName, parse)
                          ==> DaySum(rows, day, metricName, parse) == 0.0
    decreases |rows|
  {
    if rows != [] {
      var front := rows[..|rows| - 1];
      var last := rows[|rows| - 1];
      DailyTotalsAreDaySums(front, metricName, parse);
      forall day
        ensures day in DailyTotals(rows, metricName, parse)
                <==> exists i :: 0 <= i < |rows| && DayKey(rows[i]) == Some(day)
      {
        if exists i :: 0 <= i < |rows| && DayKey(rows[i]) == Some(day) {
          var i :| 0 <= i < |rows| && DayKey(rows[i]) == Some(day);
          if i < |front| {
            assert DayKey(front[i]) == Some(day);
          }
        }
        if day in DailyTotals(front, metricName, parse) {
          var i :| 0 <= i < |front| && DayKey(front[i]) == Some(day);
          assert rows[i] == front[i];
        }
      }
    }
  }

  /** What one more row does to the running total and the per-day totals. */
  lemma AggregateStep(rows: seq<Row>, i: nat, metricName: string, parse: NumberParser)
    requires i < |rows|
    ensures TotalSpend(rows[..i + 1], metricName, parse)
            == TotalSpend(rows[..i], metricName, parse) + GetMetricValue(rows[i], metricName, parse)
    ensures DailyTotals(rows[..i + 1], metricName, parse)
            == AddToDay(DailyTotals(rows[..i], metricName, parse), rows[i], GetMetricValue(rows[i], metricName, parse))
  {
    assert rows[..i + 1][..i] == rows[..i];
  }

  /**
   * The aggregation loop over the archive's rows: adds every row's metric value to
   * the total and, when the row has a usage start, to its day.
   */
  method AggregateRows(rows: seq<Row>, metricName: string, parse: NumberParser)
    returns (totalSpend: real, dailyTotals: map<string, real>)
    ensures totalSpend == TotalSpend(rows, metricName, parse)
    ensures dailyTotals == DailyTotals(rows, metricName, parse)
    ensures forall day :: day in dailyTotals <==> exists i :: 0 <= i < |rows| && DayKey(rows[i]) == Some(day)
    ensures forall day :: day in dailyTotals ==> dailyTotals[day] == DaySum(rows, day, metricName, parse)
  {
    totalSpend := 0.0;
    dailyTotals := map[];
    var i := 0;
    while i < |rows|
      invariant 0 <= i <= |rows|
      invariant totalSpend == TotalSpend(rows[..i], metricName, parse)
      invariant dailyTotals == DailyTotals(rows[..i], metricName, parse)
    {
      var row := rows[i];
      var val := GetMetricValue(row, metricName, parse);
      totalSpend := totalSpend + val;
      AggregateStep(rows, i, metricName, parse);
      var usageStart := if UsageStartField in row then row[UsageStartField] else "";
      if usageStart != "" {
        var day := BeforeFirst(usageStart, 'T');
        assert DayKey(row) == Some(day);
        dailyTotals := dailyTotals[day := (if day in dailyTotals then dailyTotals[day] else 0.0) + val];
      } else {
        assert DayKey(row) == None;
      }
      i := i + 1;
    }
    assert rows[..|rows|] == rows;
    DailyTotalsAreDaySums(rows, metricName, parse);
  }

  /** The day chosen as the last complete one and the total booked on it. */
  datatype DayChoice = DayChoice(latestDay: Option<string>, lastDaySpend: real)

  /**
   * Picks the second-latest day when there are two or more (the latest is still
   * accumulating), the only day when there is one, and nothing when there is none.
   */
  function SelectDay(dailyTotals: map<string, real>): (c: DayChoice)
    ensures |dailyTotals| == 0 ==> c == DayChoice(None, 0.0)
    ensures |dailyTotals| > 0 ==> c.latestDay.Some? && c.latestDay.value in dailyTotals
                                  && c.lastDaySpend == dailyTotals[c.latestDay.value]
    ensures |dailyTotals| == 1 ==> dailyTotals.Keys == {c.latestDay.value}
    ensures |dailyTotals| >= 2 ==>
              (exists later :: later in dailyTotals && LexLt(c.latestDay.value, later))
              && forall d1, d2 :: (d1 in dailyTotals && d2 in dailyTotals
                                   && LexLt(c.latestDay.value, d1) && LexLt(c.latestDay.value, d2)) ==> d1 == d2
  {
    if |dailyTotals| == 0 then DayChoice(None, 0.0)
    else
      var sortedDays := SortedList(dailyTotals.Keys);
      var n := |sortedDays|;
      var day := if n >= 2 then sortedDays[n - 2] else sortedDays[n - 1];
      assert day in sortedDays;
      SortedDaysFacts(sortedDays, dailyTotals.Keys);
      DayChoice(Some(day), if day in dailyTotals then dailyTotals[day] else 0.0)
  }

  /** Only the last element of a strictly sorted list comes after its second-to-last one. */
  lemma SecondLastFacts(xs: seq<string>)
    requires StrictlySorted(xs) && |xs| >= 2
    ensures LexLt(xs[|xs| - 2], xs[|xs| - 1])
    ensures forall d :: d in xs && LexLt(xs[|xs| - 2], d) ==> d == xs[|xs| - 1]
  {
    forall d | d in xs && LexLt(xs[|xs| - 2], d)
      ensures d == xs[|xs| - 1]
    {
      StrictlySortedAfter(xs, |xs| - 2, d);
    }
  }

  /** What the sorted days say about the day the selector picks from them. */
  lemma SortedDaysFacts(xs: seq<string>, days: set<string>)
    requires StrictlySorted(xs) && |xs| == |days|
    requires forall x :: x in xs <==> x in days
    ensures |xs| == 1 ==> days == {xs[0]}
    ensures |xs| >= 2 ==> xs[|xs| - 1] in days && LexLt(xs[|xs| - 2], xs[|xs| - 1])
    ensures |xs| >= 2 ==> forall d :: d in days && LexLt(xs[|xs| - 2], d) ==> d == xs[|xs| - 1]
  {
    if |xs| == 1 {
      forall x | x in days ensures x == xs[0] {
        assert x in xs;
      }
    } else if |xs| >= 2 {
      SecondLastFacts(xs);
    }
  }

  /** Of two days, the earlier one is chosen, with its own total. */
  lemma TwoDaysPickTheEarlier()
    ensures SelectDay(map["2025-09-01" := 10.0, "2025-09-02" := 5.0]) == DayChoice(Some("2025-09-01"), 10.0)
  {
    var first, second := "2025-09-01", "2025-09-02";
    var daily := map[first := 10.0, second := 5.0];
    assert daily.Keys == {first, second};
    assert |daily| == 2;
    LexLeAtFirstDifference(second, first, 9);
    var c := SelectDay(daily);
    assert c.latestDay.value == first;
  }
}
