/**
 * The month calendar of the records screen: the grid of day cells, and the
 * highlight and record dot each day cell shows.
 */
module Calendar {
  import opened Wrappers
  import opened DateUtils
  import Records

  /**
   * `calendarDays`: `firstDayOfWeek` empty cells for the days of the
   * previous month, then the days 1..`daysInMonth`.
   */
  method BuildCalendarDays(year: int, month: int) returns (cells: seq<Option<int>>)
    ensures |cells| == GetFirstDayOfWeek(year, month) + GetDaysInMonth(year, month)
    ensures forall i :: 0 <= i < GetFirstDayOfWeek(year, month) ==> cells[i] == None
    ensures forall d :: 1 <= d <= GetDaysInMonth(year, month) ==>
      cells[GetFirstDayOfWeek(year, month) + d - 1] == Some(d)
  {
    var daysInMonth := GetDaysInMonth(year, month);
    var firstDayOfWeek := GetFirstDayOfWeek(year, month);
    cells := [];
    for i := 0 to firstDayOfWeek
      invariant |cells| == i
      invariant forall j :: 0 <= j < i ==> cells[j] == None
    {
      cells := cells + [None];
    }
    for day := 1 to daysInMonth + 1
      invariant |cells| == firstDayOfWeek + day - 1
      invariant forall j :: 0 <= j < firstDayOfWeek ==> cells[j] == None
      invariant forall d :: 1 <= d < day ==> cells[firstDayOfWeek + d - 1] == Some(d)
    {
      cells := cells + [Some(day)];
    }
  }

  /** The day number of day `d` of the displayed month (`new Date(year, month, d)`). */
  function CellDay(year: int, month: int, d: int): int {
    DayNumber(JsYear(year) + month / 12, month % 12, d)
  }

  /** Day `d` sits in the column of its weekday: the grid's columns run Sunday to Saturday. */
  lemma CellColumnIsWeekday(year: int, month: int, d: int)
    ensures WeekdayOf(CellDay(year, month, d)) == (GetFirstDayOfWeek(year, month) + d - 1) % 7
  {
    var first := CellDay(year, month, 1);
    assert CellDay(year, month, d) == first + (d - 1);
    assert GetFirstDayOfWeek(year, month) == WeekdayOf(first);
    WeekdayShift(first, d - 1);
  }

  datatype Highlight = SelectedHighlight | TodayHighlight | NoHighlight
  datatype RecordDot = NoDot | CompletedDot | IncompleteDot

  /** The circle behind the day number: selection wins over today. */
  function DayHighlight(isSelected: bool, isToday: bool): (h: Highlight)
    ensures h == SelectedHighlight <==> isSelected
    ensures h == TodayHighlight <==> !isSelected && isToday
  {
    if isSelected then SelectedHighlight else if isToday then TodayHighlight else NoHighlight
  }

  /** The dot under the day number: only for an unselected day with records; green when one is completed. */
  function DayDot(isSelected: bool, hasCompleted: bool, hasAnyRecord: bool): (dot: RecordDot)
    ensures dot != NoDot <==> hasAnyRecord && !isSelected
    ensures dot == CompletedDot <==> hasAnyRecord && !isSelected && hasCompleted
  {
    if hasAnyRecord && !isSelected then (if hasCompleted then CompletedDot else IncompleteDot) else NoDot
  }

  /**
   * Fed from the grouping of the records, a day shows a dot exactly when a
   * record started that day and the day is not selected, and the dot is the
   * completed one exactly when a completed record started that day.
   */
  lemma DotFollowsRecords(rs: seq<Types.FastingRecord>, k: int, isSelected: bool)
    ensures var m := Records.RecordsByDate(rs);
      var dot := DayDot(isSelected, Records.HasCompletedRecord(m, k), Records.HasRecord(m, k));
      && (dot != NoDot <==> !isSelected && exists r :: r in rs && Records.DayKey(r) == k)
      && (dot == CompletedDot <==> !isSelected && k in Records.CompletedDays(rs))
  {
    Records.HasRecordIffStarted(rs, k);
    Records.HasCompletedIffCompletedDay(rs, k);
  }
}
