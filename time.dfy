/**
 * Duration and clock formatting and the two display values the running
 * timer shows (remaining time and progress).
 */
module TimeFormat {
  import opened Wrappers
  import opened Strings
  import opened Types

  const Minute: string := "분"
  const Hour: string := "시간"
  const Morning: string := "오전"
  const Afternoon: string := "오후"

  // ---------------------------------------------------------------------
  // formatDuration
  // ---------------------------------------------------------------------

  /** Milliseconds as "HH:MM:SS"; the hours field grows past two digits when needed. */
  function FormatDuration(ms: int): (r: string)
    ensures ms <= 0 ==> r == "00:00:00"
  {
    if ms <= 0 then "00:00:00"
    else
      var totalSeconds := ms / MsPerSecond;
      var hours := totalSeconds / 3600;
      var minutes := (totalSeconds % 3600) / 60;
      var seconds := totalSeconds % 60;
      Pad2(hours) + ":" + Pad2(minutes) + ":" + Pad2(seconds)
  }

  /** Reads back a clock "H:MM:SS" (each field plain digits) as a number of seconds. */
  function ParseClock(s: string): (r: Option<int>)
  {
    var parts := Split(s, ':');
    if |parts| == 3 && IsNumeral(parts[0]) && IsNumeral(parts[1]) && IsNumeral(parts[2]) then
      Some(DigitsValue(parts[0]) * 3600 + DigitsValue(parts[1]) * 60 + DigitsValue(parts[2]))
    else None
  }

  /**
   * The three fields of a formatted duration: minutes and seconds are two
   * digits each and below 60, hours at least two digits, and together they
   * give back the whole seconds of `ms` (0 for a non-positive duration).
   */
  lemma FormatDurationFields(ms: int)
    ensures var parts := Split(FormatDuration(ms), ':');
      && |parts| == 3
      && (forall i :: 0 <= i < 3 ==> AllDigits(parts[i]))
      && |parts[0]| >= 2 && |parts[1]| == 2 && |parts[2]| == 2
      && DigitsValue(parts[1]) < 60 && DigitsValue(parts[2]) < 60
      && DigitsValue(parts[0]) * 3600 + DigitsValue(parts[1]) * 60 + DigitsValue(parts[2])
         == (if ms <= 0 then 0 else ms / MsPerSecond)
  {
    var t := if ms <= 0 then 0 else ms / MsPerSecond;
    var h, m, s := t / 3600, (t % 3600) / 60, t % 60;
    ClockArithmetic(t);
    assert FormatDuration(ms) == Pad2(h) + ":" + Pad2(m) + ":" + Pad2(s);
    ThreeFields(Pad2(h), Pad2(m), Pad2(s));
    Pad2RoundTrip(h);
    Pad2RoundTrip(m);
    Pad2RoundTrip(s);
  }

  lemma ClockArithmetic(t: nat)
    ensures (t % 3600) / 60 < 60 && t % 60 < 60
    ensures (t / 3600) * 3600 + ((t % 3600) / 60) * 60 + t % 60 == t
  {
    var q, r := t / 3600, t % 3600;
    var m, s := r / 60, r % 60;
    assert t == q * 3600 + r;
    assert r == m * 60 + s;
    assert t == (q * 60 + m) * 60 + s;
    DivModUnique(t, 60, q * 60 + m, s);
  }

  lemma ThreeFields(a: string, b: string, c: string)
    requires AllDigits(a) && AllDigits(b) && AllDigits(c)
    ensures Split(a + ":" + b + ":" + c, ':') == [a, b, c]
  {
    assert a + ":" + b + ":" + c == a + [':'] + (b + [':'] + c);
    DigitsHaveNo(a, ':');
    DigitsHaveNo(b, ':');
    DigitsHaveNo(c, ':');
    SplitConcat(a, ':', b + [':'] + c);
    SplitConcat(b, ':', c);
    SplitNone(c, ':');
  }

  /** Parsing a formatted duration gives back its whole seconds. */
  lemma FormatDurationRoundTrip(ms: int)
    ensures ParseClock(FormatDuration(ms)) == Some(if ms <= 0 then 0 else ms / MsPerSecond)
  {
    var parts := Split(FormatDuration(ms), ':');
    FormatDurationFields(ms);
    assert IsNumeral(parts[0]) && IsNumeral(parts[1]) && IsNumeral(parts[2]);
  }

  // ---------------------------------------------------------------------
  // formatMinutes
  // ---------------------------------------------------------------------

  /** Minutes as "{m}분", "{h}시간" or "{h}시간 {m}분" (hours floored, minutes a JavaScript remainder). */
  function FormatMinutes(minutes: int): (r: string)
    ensures 0 <= minutes ==> (' ' in r <==> minutes >= 60 && minutes % 60 != 0)
    ensures 0 <= minutes ==> (EndsWith(r, Hour) <==> minutes >= 60 && minutes % 60 == 0)
  {
    LabelShape(minutes);
    var hours := minutes / 60;
    var mins := JsRem(minutes, 60);
    if hours == 0 then IntToString(mins) + Minute
    else if mins == 0 then IntToString(hours) + Hour
    else IntToString(hours) + Hour + " " + IntToString(mins) + Minute
  }

  /** Where the labels of a non-negative minute count have a space, and which unit they end with. */
  lemma LabelShape(minutes: int)
    ensures 0 <= minutes < 60 ==>
      var t := IntToString(minutes) + Minute; ' ' !in t && !EndsWith(t, Hour)
    ensures minutes >= 60 ==>
      var t := IntToString(minutes / 60) + Hour; ' ' !in t && EndsWith(t, Hour)
    ensures minutes >= 60 ==>
      var t := IntToString(minutes / 60) + Hour + " " + IntToString(JsRem(minutes, 60)) + Minute;
      ' ' in t && !EndsWith(t, Hour)
  {
    if 0 <= minutes < 60 {
      var t := IntToString(minutes) + Minute;
      DigitsHaveNo(NatToString(minutes), ' ');
      assert t[|t| - 1] == Minute[0];
    }
    if minutes >= 60 {
      var t := IntToString(minutes / 60) + Hour;
      DigitsHaveNo(NatToString(minutes / 60), ' ');
      assert t[|t| - |Hour|..] == Hour;
      var u := t + " " + IntToString(JsRem(minutes, 60)) + Minute;
      assert u[|t|] == ' ';
      assert u[|u| - 1] == Minute[0];
    }
  }

  predicate EndsWith(s: string, suffix: string) {
    |s| >= |suffix| && s[|s| - |suffix|..] == suffix
  }

  /** The number in front of `unit` in a token "{digits}{unit}". */
  function NumberBefore(token: string, unit: string): (r: Option<nat>)
  {
    if EndsWith(token, unit) && |token| > |unit| && AllDigits(token[..|token| - |unit|]) then
      Some(DigitsValue(token[..|token| - |unit|]))
    else None
  }

  /** "{m}분" or "{h}시간" as a number of minutes. */
  function ParseSingleUnit(token: string): (r: Option<int>)
  {
    var m := NumberBefore(token, Minute);
    var h := NumberBefore(token, Hour);
    if m.Some? then Some(m.value) else if h.Some? then Some(h.value * 60) else None
  }

  /** "{h}시간" followed by "{m}분" as a number of minutes. */
  function ParseHoursAndMinutes(hoursToken: string, minutesToken: string): (r: Option<int>)
  {
    var h := NumberBefore(hoursToken, Hour);
    var m := NumberBefore(minutesToken, Minute);
    if h.Some? && m.Some? then Some(h.value * 60 + m.value) else None
  }

  /** Reads a minutes label back into a number of minutes. */
  function ParseMinutesLabel(s: string): (r: Option<int>)
  {
    var parts := Split(s, ' ');
    if |parts| == 1 then ParseSingleUnit(parts[0])
    else if |parts| == 2 then ParseHoursAndMinutes(parts[0], parts[1])
    else None
  }

  lemma NumberBeforeUnit(n: nat, unit: string)
    requires unit != [] && !IsDigit(unit[0])
    ensures NumberBefore(NatToString(n) + unit, unit) == Some(n)
  {
    var t := NatToString(n) + unit;
    assert t[..|t| - |unit|] == NatToString(n);
    assert t[|t| - |unit|..] == unit;
    NatToStringRoundTrip(n);
  }

  lemma NoNumberBeforeOtherUnit(n: nat)
    ensures NumberBefore(NatToString(n) + Hour, Minute) == None
  {
    var t := NatToString(n) + Hour;
    assert t[|t| - 1] == Hour[1];
  }

  /** Every non-negative number of minutes is displayed unambiguously: the label reads back. */
  lemma FormatMinutesRoundTrip(m: nat)
    ensures ParseMinutesLabel(FormatMinutes(m)) == Some(m)
  {
    if m < 60 {
      MinutesOnlyReadsBack(m);
    } else if m % 60 == 0 {
      HoursOnlyReadsBack(m / 60);
    } else {
      HoursAndMinutesReadBack(m / 60, m % 60);
    }
  }

  lemma MinutesOnlyReadsBack(m: nat)
    ensures ParseMinutesLabel(NatToString(m) + Minute) == Some(m)
  {
    var t := NatToString(m) + Minute;
    SplitNone(t, ' ');
    NumberBeforeUnit(m, Minute);
  }

  lemma HoursOnlyReadsBack(h: nat)
    ensures ParseMinutesLabel(NatToString(h) + Hour) == Some(h * 60)
  {
    var t := NatToString(h) + Hour;
    SplitNone(t, ' ');
    NumberBeforeUnit(h, Hour);
    NoNumberBeforeOtherUnit(h);
  }

  lemma HoursAndMinutesReadBack(h: nat, r: nat)
    ensures ParseMinutesLabel(NatToString(h) + Hour + " " + NatToString(r) + Minute) == Some(h * 60 + r)
  {
    var a, b := NatToString(h) + Hour, NatToString(r) + Minute;
    var t := NatToString(h) + Hour + " " + NatToString(r) + Minute;
    assert t == a + [' '] + b;
    assert Split(t, ' ') == [a, b] by {
      assert ' ' !in Hour;
      DigitsHaveNo(NatToString(h), ' ');
      SplitConcat(a, ' ', b);
      assert ' ' !in Minute;
      DigitsHaveNo(NatToString(r), ' ');
      SplitNone(b, ' ');
    }
    assert NumberBefore(a, Hour) == Some(h) by { NumberBeforeUnit(h, Hour); }
    assert NumberBefore(b, Minute) == Some(r) by { NumberBeforeUnit(r, Minute); }
    TwoTokensReadBack(t, a, b, h, r);
  }

  lemma TwoTokensReadBack(t: string, a: string, b: string, h: nat, r: nat)
    requires Split(t, ' ') == [a, b]
    requires NumberBefore(a, Hour) == Some(h) && NumberBefore(b, Minute) == Some(r)
    ensures ParseMinutesLabel(t) == Some(h * 60 + r)
  {
  }

  // ---------------------------------------------------------------------
  // formatTime
  // ---------------------------------------------------------------------

  /** The hour shown on a 12-hour clock: `hours % 12 || 12`. */
  function DisplayHour(hours: int): (d: int)
    ensures 0 <= hours ==> 1 <= d <= 12
    ensures 0 <= hours ==> d % 12 == hours % 12
  {
    var r := JsRem(hours, 12);
    if r == 0 then 12 else r
  }

  /** The 오전/오후 marker of an hour of the day. */
  function Period(hours: int): (p: string)
    ensures p == Morning <==> hours < 12
    ensures p == Afternoon <==> hours >= 12
  {
    if hours < 12 then Morning else Afternoon
  }

  /** A local hour and minute as "오전 H:MM" or "오후 H:MM". */
  function FormatTime(hours: int, minutes: int): (r: string)
    ensures |r| >= 6
    ensures r[..|Morning|] == Morning <==> hours < 12
    ensures 0 <= minutes < 100 ==> r[|r| - 3] == ':'
  {
    var p := Period(hours);
    var t := p + " " + IntToString(DisplayHour(hours)) + ":" + PadInt2(minutes);
    assert t[..|Morning|] == p;
    assert Morning != Afternoon by { assert Morning[1] != Afternoon[1]; }
    t
  }

  /** Reads a 12-hour label back into the hour of the day (0..23) and the minutes. */
  function ParseTimeLabel(s: string): (r: Option<(int, int)>)
  {
    var parts := Split(s, ' ');
    if |parts| != 2 then None
    else
      var hm := Split(parts[1], ':');
      if |hm| != 2 || hm[0] == [] || hm[1] == [] || !AllDigits(hm[0]) || !AllDigits(hm[1]) then None
      else
        var dh, mm := DigitsValue(hm[0]), DigitsValue(hm[1]);
        if dh < 1 || dh > 12 then None
        else if parts[0] == Morning then Some((dh % 12, mm))
        else if parts[0] == Afternoon then Some((dh % 12 + 12, mm))
        else None
  }

  /**
   * A clock label determines the time it shows: for every hour of the day and
   * every non-negative minute count, parsing the label gives both back.
   */
  lemma FormatTimeRoundTrip(hours: int, minutes: nat)
    requires 0 <= hours < 24
    ensures ParseTimeLabel(FormatTime(hours, minutes)) == Some((hours, minutes))
  {
    var p, dh := Period(hours), DisplayHour(hours);
    var hs, ms := NatToString(dh), Pad2(minutes);
    var s, clock := FormatTime(hours, minutes), hs + ":" + ms;
    assert s == p + " " + clock by {
      assert IntToString(dh) == hs && PadInt2(minutes) == ms;
    }
    LabelFields(p, dh, minutes);
    LabelReadsBack(s, clock, hs, ms, hours, minutes);
  }

  lemma LabelReadsBack(s: string, clock: string, hs: string, ms: string, hours: int, minutes: nat)
    requires 0 <= hours < 24
    requires Split(s, ' ') == [Period(hours), clock] && Split(clock, ':') == [hs, ms]
    requires hs != [] && ms != [] && AllDigits(hs) && AllDigits(ms)
    requires DigitsValue(hs) == DisplayHour(hours) && DigitsValue(ms) == minutes
    ensures ParseTimeLabel(s) == Some((hours, minutes))
  {
    ParseOfFields(s, Period(hours), clock, hs, ms);
    var v := DigitsValue(hs);
    assert v % 12 == hours % 12;
    if hours < 12 {
      assert v % 12 == hours;
    } else {
      assert v % 12 + 12 == hours;
    }
  }

  /** The reading of a label whose pieces are known. */
  lemma ParseOfFields(s: string, p: string, clock: string, hs: string, ms: string)
    requires Split(s, ' ') == [p, clock] && Split(clock, ':') == [hs, ms]
    requires hs != [] && ms != [] && AllDigits(hs) && AllDigits(ms)
    requires 1 <= DigitsValue(hs) <= 12
    requires p == Morning || p == Afternoon
    ensures p == Morning ==> ParseTimeLabel(s) == Some((DigitsValue(hs) % 12, DigitsValue(ms)))
    ensures p == Afternoon ==> ParseTimeLabel(s) == Some((DigitsValue(hs) % 12 + 12, DigitsValue(ms)))
  {
    assert Morning != Afternoon by { assert Morning[1] != Afternoon[1]; }
  }

  /** The pieces of "P H:MM" split back into P, the hour digits and the minute digits. */
  lemma LabelFields(p: string, dh: nat, minutes: nat)
    requires p == Morning || p == Afternoon
    ensures var clock := NatToString(dh) + ":" + Pad2(minutes);
      && Split(p + " " + clock, ' ') == [p, clock]
      && Split(clock, ':') == [NatToString(dh), Pad2(minutes)]
      && DigitsValue(NatToString(dh)) == dh && DigitsValue(Pad2(minutes)) == minutes
  {
    var d, mm := NatToString(dh), Pad2(minutes);
    var clock := d + ":" + mm;
    assert clock == d + [':'] + mm;
    assert Split(p + " " + clock, ' ') == [p, clock] by {
      assert p + " " + clock == p + [' '] + clock;
      assert ' ' !in p;
      DigitsHaveNo(d, ' ');
      DigitsHaveNo(mm, ' ');
      SplitTwo(p, ' ', clock);
    }
    assert Split(clock, ':') == [d, mm] by {
      DigitsHaveNo(d, ':');
      DigitsHaveNo(mm, ':');
      SplitTwo(d, ':', mm);
    }
    NatToStringRoundTrip(dh);
    Pad2RoundTrip(minutes);
  }

  // ---------------------------------------------------------------------
  // remaining time and progress
  // ---------------------------------------------------------------------

  /** `max(0, target - now)`. */
  function GetRemainingMs(target: int, now: int): (r: int)
    ensures r >= 0
    ensures r == 0 <==> now >= target
    ensures r > 0 ==> now + r == target
  {
    if target - now > 0 then target - now else 0
  }

  function Clamp01(x: real): (r: real)
    ensures 0.0 <= r <= 1.0
    ensures 0.0 <= x <= 1.0 ==> r == x
    ensures x <= 0.0 ==> r == 0.0
    ensures x >= 1.0 ==> r == 1.0
  {
    if x < 0.0 then 0.0 else if x > 1.0 then 1.0 else x
  }

  /** The elapsed fraction of [start, end], clamped to [0, 1]; 0 for an empty or inverted span. */
  function GetProgress(start: int, end: int, now: int): (r: real)
    ensures 0.0 <= r <= 1.0
    ensures end <= start ==> r == 0.0
    ensures now <= start ==> r == 0.0
    ensures start < end <= now ==> r == 1.0
    ensures start < now < end ==> 0.0 < r < 1.0
  {
    var total := end - start;
    var elapsed := now - start;
    if total <= 0 then 0.0
    else
      var ratio := elapsed as real / total as real;
      assert now >= end ==> ratio >= 1.0;
      assert start < now < end ==> 0.0 < ratio < 1.0;
      Clamp01(ratio)
  }

  /** Progress never goes backwards as the clock advances. */
  lemma ProgressMonotone(start: int, end: int, now1: int, now2: int)
    requires now1 <= now2
    ensures GetProgress(start, end, now1) <= GetProgress(start, end, now2)
  {
    if end > start {
      var t := (end - start) as real;
      var a, b := (now1 - start) as real, (now2 - start) as real;
      DivideMonotone(a, b, t);
    }
  }

  lemma DivideMonotone(a: real, b: real, t: real)
    requires a <= b && t > 0.0
    ensures a / t <= b / t
  {
  }

  /** Over a non-empty span the ring is full exactly when no time remains. */
  lemma ProgressFullIffNothingRemains(start: int, end: int, now: int)
    requires start < end
    ensures GetProgress(start, end, now) == 1.0 <==> GetRemainingMs(end, now) == 0
  {
  }
}
