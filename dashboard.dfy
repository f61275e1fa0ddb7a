/**
 * The figures of the dashboard page (src/pages/Dashboard.tsx): the number
 * of scheduled occurrences, the average attendance percentage, and the
 * current month's entry of the monthly series.
 */
module Dashboard {
  import opened Wrappers
  import opened Types
  import opened Seqs
  import opened Rounding
  import opened Occurrences

  /** `totalEventsThisMonth`: every event, attendance-enabled or not, plus every weekly class. */
  function TotalEventsThisMonth(events: seq<Event>, classes: seq<WeeklyClass>): (n: nat)
    ensures n == |events| + |classes|
    ensures n >= |AttendableOccurrences(events, classes)|
  {
    |events| + |classes|
  }

  /**
   * The total counts exactly the attendable catalogue when every event has
   * attendance enabled, and is larger otherwise.
   */
  lemma TotalCountsAttendableCatalogue(events: seq<Event>, classes: seq<WeeklyClass>)
    ensures (TotalEventsThisMonth(events, classes) == |AttendableOccurrences(events, classes)|)
              <==> (forall e :: e in events ==> e.attendanceEnabled)
  {
    FilterKeepsAll(events, IsAttendable);
  }

  /**
   * `avgAttendance`: 0 for no summaries, otherwise the mean percentage
   * rounded half up as `Math.round` does.
   */
  function AverageAttendance(percentages: seq<int>): (avg: int)
    ensures |percentages| == 0 ==> avg == 0
    ensures |percentages| > 0 ==>
              2 * |percentages| * avg <= 2 * Sum(percentages) + |percentages| < 2 * |percentages| * (avg + 1)
  {
    if |percentages| > 0 then RoundHalfUp(Sum(percentages), |percentages|) else 0
  }

  /** Percentages within 0..100 average to a percentage within 0..100. */
  lemma AverageInRange(percentages: seq<int>)
    requires forall i :: 0 <= i < |percentages| ==> 0 <= percentages[i] <= 100
    ensures 0 <= AverageAttendance(percentages) <= 100
  {
    if |percentages| > 0 {
      SumBounds(percentages, 0, 100);
      RoundHalfUpBounds(Sum(percentages), |percentages|, 0, 100);
    }
  }

  /** One point of the monthly attendance series. */
  datatype MonthlyAttendance = MonthlyAttendance(month: string, percentage: int, totalEvents: nat)

  /**
   * `currentMonthData`: the first entry for the month, falling back to the
   * last entry; an empty series has no entry at all.
   */
  function CurrentMonthData(data: seq<MonthlyAttendance>, month: string): (r: Option<MonthlyAttendance>)
    ensures data == [] <==> r.None?
    ensures r.Some? ==> r.value in data
    ensures r.Some? && r.value.month != month ==> r.value == data[|data| - 1]
    ensures (exists m :: m in data && m.month == month) ==> r.Some? && r.value.month == month
  {
    match Find(data, (m: MonthlyAttendance) => m.month == month)
    case Some(m) => Some(m)
    case None => if data == [] then None else Some(data[|data| - 1])
  }

  /** The entry chosen for a month present in the series is its first entry. */
  lemma CurrentMonthDataIsFirstMatch(data: seq<MonthlyAttendance>, month: string, i: nat)
    requires i < |data| && data[i].month == month
    requires forall j :: 0 <= j < i ==> data[j].month != month
    ensures CurrentMonthData(data, month) == Some(data[i])
  {
    FindFirst(data, (m: MonthlyAttendance) => m.month == month, i);
  }
}
