/** The `/schedule-dates/:UID` projection: each available date, formatted as a calendar date. */
module ScheduleDates {
  import opened Collaborators

  /**
   * The reduce over `dates[0]`: starting from the empty list, each row appends
   * `format(pair_date, 'YYYY-MM-DD')` to what the earlier rows produced.
   */
  function AvailableDates(lib: Library, dates: seq<DateRow>): (r: seq<string>)
    ensures |r| == |dates|
    ensures forall i :: 0 <= i < |dates| ==> r[i] == lib.format(dates[i].pairDate, DateOnly)
    decreases |dates|
  {
    if dates == [] then []
    else
      var last := |dates| - 1;
      AvailableDates(lib, dates[..last]) + [lib.format(dates[last].pairDate, DateOnly)]
  }

  /** Listing two runs of rows one after the other lists each run's dates, in the same order. */
  lemma AvailableDatesAppend(lib: Library, a: seq<DateRow>, b: seq<DateRow>)
    ensures AvailableDates(lib, a + b) == AvailableDates(lib, a) + AvailableDates(lib, b)
  {
  }
}
