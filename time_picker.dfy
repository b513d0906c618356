// The hour picker of the settings screen: the 24 selectable "HH:00" values
// with their 12-hour labels, and the label shown for the stored value.

module TimePicker {
  import opened Wrappers
  import opened Strings
  import opened TimeFormat

  /** One selectable hour: the stored "HH:00" value and the label shown for it. */
  datatype TimeOption = TimeOption(value: string, caption: string)

  /** The label of a whole hour: "오전 H:00" / "오후 H:00" on a 12-hour clock. */
  function HourLabel(hour: int): (r: string)
    ensures r == FormatTime(hour, 0)
    ensures |r| >= 3 && r[|r| - 3..] == ":00"
  {
    assert PadInt2(0) == "00" by { assert Pad2(0) == "0" + NatToString(0); }
    Period(hour) + " " + IntToString(DisplayHour(hour)) + ":00"
  }

  /** The option of hour `hour`: its value zero-pads the hour to two digits. */
  function OptionAt(hour: nat): (o: TimeOption)
    requires hour < 24
    ensures |o.value| == 5 && o.value[2..] == ":00"
  {
    TimeOption(Pad2(hour) + ":00", HourLabel(hour))
  }

  /** `TIME_OPTIONS`: one option per hour of the day, in hour order. */
  function TimeOptions(): (opts: seq<TimeOption>)
    ensures |opts| == 24
    ensures forall h: nat :: h < 24 ==> opts[h] == OptionAt(h)
  {
    seq(24, h requires 0 <= h < 24 => OptionAt(h))
  }

  /**
   * The options are ordered by hour and no two share a value: the value of
   * entry `h` reads back as `h`, so an earlier entry holds an earlier hour.
   */
  lemma OptionsDistinctAndOrdered(i: nat, j: nat)
    requires i < j < 24
    ensures TimeOptions()[i].value != TimeOptions()[j].value
    ensures ParseInt(TimeOptions()[i].value).Some? && ParseInt(TimeOptions()[j].value).Some?
      && ParseInt(TimeOptions()[i].value).value < ParseInt(TimeOptions()[j].value).value
  {
    var vi, vj := TimeOptions()[i].value, TimeOptions()[j].value;
    OptionValueReadsBack(i);
    OptionValueReadsBack(j);
    assert ParseInt(vi) != ParseInt(vj);
  }

  /** The label of entry `h` reads back as the hour `h` on the minute. */
  lemma OptionCaptionReadsBack(h: nat)
    requires h < 24
    ensures ParseTimeLabel(TimeOptions()[h].caption) == Some((h, 0))
  {
    OptionFields(h);
    HourLabelReadsBack(h);
  }

  /** The value of entry `h` parses back as the hour `h`. */
  lemma OptionValueReadsBack(h: nat)
    requires h < 24
    ensures ParseInt(TimeOptions()[h].value) == Some(h)
  {
    assert TimeOptions()[h].value == Pad2(h) + ":00";
    ParseIntOfPad2(h, ":00");
  }

  /**
   * The label of entry `h` starts with 오전 exactly for the morning hours, and
   * shows `h % 12` with midnight and noon shown as 12.
   */
  lemma OptionLabel(h: nat)
    requires h < 24
    ensures var shown := TimeOptions()[h].caption;
      && (shown[..|Morning|] == Morning <==> h < 12)
      && shown == Period(h) + " " + NatToString(if h % 12 == 0 then 12 else h % 12) + ":00"
  {
    var shown := TimeOptions()[h].caption;
    assert shown == HourLabel(h);
    var p := Period(h);
    var rest := " " + IntToString(DisplayHour(h)) + ":00";
    assert |p| == |Morning|;
    PrefixOfConcat(p + " " + IntToString(DisplayHour(h)), ":00", |p|);
    PrefixOfConcat(p + " ", IntToString(DisplayHour(h)), |p|);
    PrefixOfConcat(p, " ", |p|);
    assert shown[..|Morning|] == p;
    assert Morning != Afternoon by { assert Morning[1] != Afternoon[1]; }
  }

  lemma PrefixOfConcat(a: string, b: string, n: nat)
    requires n <= |a|
    ensures (a + b)[..n] == a[..n]
  {
  }

  /**
   * `getDisplayTime`: the hour before the first ':' parsed with `parseInt`,
   * shown on the 12-hour clock with the minutes always ":00". An hour that
   * does not parse is NaN: `NaN < 12` is false and `NaN % 12 || 12` is 12.
   */
  function GetDisplayTime(value: string): (r: string)
    ensures |r| >= 3 && r[|r| - 3..] == ":00"
    ensures ParseInt(Split(value, ':')[0]) == None ==> r == Afternoon + " 12:00"
    ensures forall h :: ParseInt(Split(value, ':')[0]) == Some(h) && 0 <= h < 24 ==>
      ParseTimeLabel(r) == Some((h, 0))
  {
    match ParseInt(Split(value, ':')[0])
    case None => Afternoon + " 12:00"
    case Some(hour) =>
      HourLabelReadsBack(hour);
      HourLabel(hour)
  }

  /** The label of a whole hour of the day reads back as that hour. */
  lemma HourLabelReadsBack(hour: int)
    ensures 0 <= hour < 24 ==> ParseTimeLabel(HourLabel(hour)) == Some((hour, 0))
  {
    if 0 <= hour < 24 {
      FormatTimeRoundTrip(hour, 0);
    }
  }

  /**
   * A stored "HH:MM" value is shown as the label of its hour, whatever its
   * minutes: the label always reads ":00".
   */
  lemma {:induction false} DisplayTimeOfHour(h: nat, minutes: string)
    requires h < 24
    ensures GetDisplayTime(Pad2(h) + ":" + minutes) == HourLabel(h)
  {
    var d := Pad2(h);
    DigitsHaveNo(d, ':');
    assert d + ":" + minutes == d + [':'] + minutes;
    SplitConcat(d, ':', minutes);
    ParseIntOfPad2(h, []);
    assert d + [] == d;
  }

  /** The picker shows, for every option's value, exactly that option's label. */
  lemma DisplayTimeOfOption(h: nat)
    requires h < 24
    ensures GetDisplayTime(TimeOptions()[h].value) == TimeOptions()[h].caption
  {
    OptionFields(h);
    DisplayOfValue(TimeOptions()[h].value, TimeOptions()[h].caption, h);
  }

  lemma OptionFields(h: nat)
    requires h < 24
    ensures TimeOptions()[h].value == Pad2(h) + ":" + "00" && TimeOptions()[h].caption == HourLabel(h)
  {
    assert TimeOptions()[h] == OptionAt(h);
  }

  lemma DisplayOfValue(value: string, caption: string, h: nat)
    requires h < 24 && value == Pad2(h) + ":" + "00" && caption == HourLabel(h)
    ensures GetDisplayTime(value) == caption
  {
    DisplayTimeOfHour(h, "00");
  }
}
