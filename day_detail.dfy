/**
 * The day detail card under the calendar: the date heading, and per record
 * the outcome badge, start and end clock times and the fasting time.
 */
module DayDetail {
  import opened Wrappers
  import opened Strings
  import opened Types
  import opened DateUtils
  import TimeFormat

  /** `${parseInt(x)}` for a part of the split key that may be missing: the number, or "NaN". */
  function ShowParsed(parts: seq<string>, i: nat): (s: string)
    ensures i < |parts| && ParseInt(parts[i]).Some? ==> s == IntToString(ParseInt(parts[i]).value)
    ensures i >= |parts| || ParseInt(parts[i]).None? ==> s == "NaN"
  {
    if i < |parts| then
      match ParseInt(parts[i])
      case Some(v) => IntToString(v)
      case None => "NaN"
    else "NaN"
  }

  /** `formatDateDisplay`: the month and day of a "YYYY-MM-DD" key, without padding. */
  function FormatDateDisplay(dateKey: string): (s: string)
    ensures |s| >= 1 && s[|s| - 1] == '일'
    ensures '-' !in dateKey ==> s == "NaN월 NaN일"
  {
    SplitWithout(dateKey, '-');
    var parts := Split(dateKey, '-');
    ShowParsed(parts, 1) + "월 " + ShowParsed(parts, 2) + "일"
  }

  /** On a date key the year is dropped and the padding zeros go. */
  lemma DateDisplayOfKey(date: LocalDate)
    requires date.year >= 0 && date.month >= 0 && date.day >= 0
    ensures FormatDateDisplay(FormatDateKey(date)) == NatToString(date.month + 1) + "월 " + NatToString(date.day) + "일"
  {
    var parts := Split(FormatDateKey(date), '-');
    DateKeyFields(date);
    ShowPadded(parts, 1, date.month + 1);
    ShowPadded(parts, 2, date.day);
  }

  /** A zero-padded field is shown as its number without the padding. */
  lemma ShowPadded(parts: seq<string>, i: nat, n: nat)
    requires i < |parts| && parts[i] == Pad2(n)
    ensures ShowParsed(parts, i) == NatToString(n)
  {
    assert parts[i] == Pad2(n) + [];
    ParseIntOfPad2(n, []);
  }

  /** `formatTimeFromISO` of an instant: the same 12-hour label as the time utility. */
  function FormatTimeOf(t: int): (s: string)
    ensures TimeFormat.ParseTimeLabel(s) == Some((HourOf(t), MinuteOf(t)))
    ensures s != "-"
  {
    TimeFormat.FormatTimeRoundTrip(HourOf(t), MinuteOf(t));
    var s := TimeFormat.FormatTime(HourOf(t), MinuteOf(t));
    assert s[0] == TimeFormat.Period(HourOf(t))[0];
    s
  }

  datatype RecordRow = RecordRow(badge: string, start: string, end: string, duration: string)

  datatype DayView =
    | NoRecords(message: string)
    | Listing(heading: string, rows: seq<RecordRow>)

  const GoalReached := "목표 달성"
  const StoppedEarly := "중도 종료"

  /** One record's row: badge, start, end ("-" while open) and the fasting time. */
  function Row(r: FastingRecord): (row: RecordRow)
    ensures row.badge == GoalReached <==> r.completed
    ensures row.end == "-" <==> r.endTime.None?
    ensures r.endTime.Some? ==> TimeFormat.ParseTimeLabel(row.end) == Some((HourOf(r.endTime.value), MinuteOf(r.endTime.value)))
    ensures TimeFormat.ParseTimeLabel(row.start) == Some((HourOf(r.startTime), MinuteOf(r.startTime)))
    ensures r.actualDuration >= 0 ==> TimeFormat.ParseMinutesLabel(row.duration) == Some(r.actualDuration)
  {
    DurationReadsBack(r.actualDuration);
    RecordRow(
      if r.completed then GoalReached else StoppedEarly,
      FormatTimeOf(r.startTime),
      if r.endTime.Some? then FormatTimeOf(r.endTime.value) else "-",
      TimeFormat.FormatMinutes(r.actualDuration))
  }

  lemma DurationReadsBack(m: int)
    ensures m >= 0 ==> TimeFormat.ParseMinutesLabel(TimeFormat.FormatMinutes(m)) == Some(m)
  {
    if m >= 0 {
      TimeFormat.FormatMinutesRoundTrip(m);
    }
  }

  /** The card: a "no records" line for an empty day, otherwise a heading and one row per record. */
  function DayDetailView(dateKey: string, records: seq<FastingRecord>): (v: DayView)
    ensures v.NoRecords? <==> records == []
    ensures v.NoRecords? ==> v.message == FormatDateDisplay(dateKey) + "에는 기록이 없습니다"
    ensures v.Listing? ==> v.heading == FormatDateDisplay(dateKey) + " 기록"
    ensures v.Listing? ==> |v.rows| == |records| && forall i :: 0 <= i < |records| ==> v.rows[i] == Row(records[i])
  {
    if |records| == 0 then NoRecords(FormatDateDisplay(dateKey) + "에는 기록이 없습니다")
    else Listing(FormatDateDisplay(dateKey) + " 기록", seq(|records|, i requires 0 <= i < |records| => Row(records[i])))
  }
}
