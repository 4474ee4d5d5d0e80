/** Calendar days as consecutive integers. */
module Dates {

  /** DateRange: the days from start through end, one per offset 0 .. end - start. */
  function DateRange(start: int, end: int): (days: seq<int>)
    requires start <= end + 1
    ensures |days| == end - start + 1
    ensures days != [] ==> days[0] == start && days[|days| - 1] == end
    ensures forall i :: 0 < i < |days| ==> days[i] == days[i - 1] + 1
  {
    seq(end - start + 1, offset => start + offset)
  }

  /** A day is in the range exactly when it lies between its bounds, and it occurs once. */
  lemma InDateRange(start: int, end: int, day: int)
    requires start <= end + 1
    ensures day in DateRange(start, end) <==> start <= day <= end
    ensures forall i, j :: 0 <= i < j < |DateRange(start, end)| ==>
              DateRange(start, end)[i] < DateRange(start, end)[j]
  {
    var days := DateRange(start, end);
    if start <= day <= end {
      assert days[day - start] == day;
    }
  }
}
