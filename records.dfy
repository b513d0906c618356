/**
 * The records hook: the history grouped by day, the current and longest
 * streaks of days with a completed fast, and the whole-history and this-week
 * statistics. Days are day numbers (the date part of a record's start time;
 * `DateUtils.DateKeyOfISO` relates them to the `YYYY-MM-DD` keys), and the
 * clock reading ("today", "now") is a parameter.
 */
module Records {
  import opened Types
  import opened DateUtils

  /** The day a record belongs to: the date part of its start time. */
  function DayKey(r: FastingRecord): int {
    r.startTime / MsPerDay
  }

  function Max(a: int, b: int): int {
    if a >= b then a else b
  }

  // ---------------------------------------------------------------------
  // recordsByDate, getRecordsByDate, hasRecord, hasCompletedRecord
  // ---------------------------------------------------------------------

  /** The records started on day `k`, in list order, each as often as in the list. */
  function OnDay(rs: seq<FastingRecord>, k: int): (day: seq<FastingRecord>)
    ensures |day| <= |rs|
    ensures forall r :: r in day <==> r in rs && DayKey(r) == k
  {
    if rs == [] then []
    else
      var init, last := rs[..|rs| - 1], rs[|rs| - 1];
      assert rs == init + [last];
      OnDay(init, k) + (if DayKey(last) == k then [last] else [])
  }

  lemma {:induction false} OnDayCounts(rs: seq<FastingRecord>, k: int, r: FastingRecord)
    ensures multiset(OnDay(rs, k))[r] == if DayKey(r) == k then multiset(rs)[r] else 0
  {
    if rs != [] {
      var init, last := rs[..|rs| - 1], rs[|rs| - 1];
      assert rs == init + [last];
      OnDayCounts(init, k, r);
    }
  }

  /** The days on which some record started. */
  function Days(rs: seq<FastingRecord>): set<int> {
    set r | r in rs :: DayKey(r)
  }

  /** The grouping as a value: each day with a record, mapped to that day's records. */
  function RecordsByDate(rs: seq<FastingRecord>): (m: map<int, seq<FastingRecord>>)
    ensures m.Keys == Days(rs)
  {
    map k | k in Days(rs) :: OnDay(rs, k)
  }

  /** Appending one record extends (or opens) the bucket of its day only. */
  lemma GroupingStep(rs: seq<FastingRecord>, r: FastingRecord)
    ensures var m, k := RecordsByDate(rs), DayKey(r);
      RecordsByDate(rs + [r]) == m[k := (if k in m then m[k] else []) + [r]]
  {
    var m, k := RecordsByDate(rs), DayKey(r);
    var lhs, rhs := RecordsByDate(rs + [r]), m[k := (if k in m then m[k] else []) + [r]];
    assert lhs.Keys == rhs.Keys by {
      DaysStep(rs, r);
    }
    forall k' | k' in lhs
      ensures lhs[k'] == rhs[k']
    {
      OnDayStep(rs, r, k');
      if k' == k && k !in m {
        OnDayOfOtherDay(rs, k);
      }
    }
  }

  lemma DaysStep(rs: seq<FastingRecord>, r: FastingRecord)
    ensures Days(rs + [r]) == Days(rs) + {DayKey(r)}
  {
    forall x | x in rs + [r]
      ensures x in rs || x == r
    {
    }
  }

  lemma OnDayStep(rs: seq<FastingRecord>, r: FastingRecord, k: int)
    ensures OnDay(rs + [r], k) == OnDay(rs, k) + (if DayKey(r) == k then [r] else [])
  {
    assert (rs + [r])[..|rs|] == rs;
  }

  lemma OnDayOfOtherDay(rs: seq<FastingRecord>, k: int)
    requires k !in Days(rs)
    ensures OnDay(rs, k) == []
  {
    if OnDay(rs, k) != [] {
      assert OnDay(rs, k)[0] in OnDay(rs, k);
    }
  }

  /** The `forEach` that builds `recordsByDate`. */
  method GroupByDate(records: seq<FastingRecord>) returns (m: map<int, seq<FastingRecord>>)
    ensures m == RecordsByDate(records)
  {
    m := map[];
    for i := 0 to |records|
      invariant m == RecordsByDate(records[..i])
    {
      ghost var before := m;
      var k := DayKey(records[i]);
      if k !in m {
        m := m[k := []];
      }
      m := m[k := m[k] + [records[i]]];
      assert m == before[k := (if k in before then before[k] else []) + [records[i]]];
      assert RecordsByDate(records[..i + 1]) == m by {
        assert records[..i + 1] == records[..i] + [records[i]];
        GroupingStep(records[..i], records[i]);
      }
    }
    assert records[..|records|] == records;
  }

  /** `getRecordsByDate`: the day's bucket, or an empty list. */
  function GetRecordsByDate(m: map<int, seq<FastingRecord>>, k: int): (day: seq<FastingRecord>)
    ensures k !in m ==> day == []
  {
    if k in m then m[k] else []
  }

  /** `hasCompletedRecord`: the day's bucket exists and holds a completed record. */
  predicate HasCompletedRecord(m: map<int, seq<FastingRecord>>, k: int)
    ensures HasCompletedRecord(m, k) <==> exists r :: r in GetRecordsByDate(m, k) && r.completed
    ensures HasCompletedRecord(m, k) ==> HasRecord(m, k)
  {
    k in m && exists i :: 0 <= i < |m[k]| && m[k][i].completed
  }

  /** `hasRecord`: the day's bucket exists and is not empty. */
  predicate HasRecord(m: map<int, seq<FastingRecord>>, k: int)
    ensures HasRecord(m, k) <==> GetRecordsByDate(m, k) != []
  {
    k in m && |m[k]| > 0
  }

  /** Looking a day up in the grouping gives exactly that day's records, in order. */
  lemma GetRecordsByDateIsOnDay(rs: seq<FastingRecord>, k: int)
    ensures GetRecordsByDate(RecordsByDate(rs), k) == OnDay(rs, k)
  {
    if k !in Days(rs) && OnDay(rs, k) != [] {
      assert OnDay(rs, k)[0] in OnDay(rs, k);
    }
  }

  /** Every record sits in its own day's bucket, and no bucket is empty. */
  lemma GroupingCoversRecords(rs: seq<FastingRecord>)
    ensures forall r :: r in rs ==> DayKey(r) in RecordsByDate(rs) && r in RecordsByDate(rs)[DayKey(r)]
    ensures forall k :: k in RecordsByDate(rs) ==> |RecordsByDate(rs)[k]| > 0
  {
    forall k | k in RecordsByDate(rs)
      ensures |RecordsByDate(rs)[k]| > 0
    {
      var r :| r in rs && DayKey(r) == k;
      assert r in OnDay(rs, k);
    }
  }

  /** A day has a record exactly when some record started that day. */
  lemma HasRecordIffStarted(rs: seq<FastingRecord>, k: int)
    ensures HasRecord(RecordsByDate(rs), k) <==> exists r :: r in rs && DayKey(r) == k
  {
    GroupingCoversRecords(rs);
  }

  /** The days with a completed record. */
  function CompletedDays(rs: seq<FastingRecord>): (cd: set<int>)
    ensures cd <= Days(rs)
    ensures |cd| <= |rs|
  {
    CompletedDaysBound(rs);
    set r | r in rs && r.completed :: DayKey(r)
  }

  /** Each record adds at most one completed day. */
  lemma {:induction false} CompletedDaysBound(rs: seq<FastingRecord>)
    ensures |set r | r in rs && r.completed :: DayKey(r)| <= |rs|
  {
    if rs != [] {
      var init, last := rs[..|rs| - 1], rs[|rs| - 1];
      assert rs == init + [last];
      CompletedDaysBound(init);
      var before := set r | r in init && r.completed :: DayKey(r);
      var after := set r | r in rs && r.completed :: DayKey(r);
      assert after <= before + {DayKey(last)};
      assert |before + {DayKey(last)}| <= |before| + 1;
      SubsetSize(after, before + {DayKey(last)});
    }
  }

  lemma {:induction false} SubsetSize(a: set<int>, b: set<int>)
    requires a <= b
    ensures |a| <= |b|
    decreases |b|
  {
    if a != {} {
      NonEmptyHasElement(a);
      var x :| x in a;
      SubsetSize(a - {x}, b - {x});
    }
  }

  /** The calendar's completed marker and the streaks agree on which days count. */
  lemma HasCompletedIffCompletedDay(rs: seq<FastingRecord>, k: int)
    ensures HasCompletedRecord(RecordsByDate(rs), k) <==> k in CompletedDays(rs)
    ensures HasCompletedRecord(RecordsByDate(rs), k) ==> HasRecord(RecordsByDate(rs), k)
  {
    if k in CompletedDays(rs) {
      var r :| r in rs && r.completed && DayKey(r) == k;
      var day := OnDay(rs, k);
      assert r in day;
      var i :| 0 <= i < |day| && day[i] == r;
    }
  }

  // ---------------------------------------------------------------------
  // calculateStreaks
  // ---------------------------------------------------------------------

  /** The `forEach` that fills `completedDates`. */
  method CollectCompletedDays(records: seq<FastingRecord>) returns (days: set<int>)
    ensures days == CompletedDays(records)
  {
    days := {};
    for i := 0 to |records|
      invariant days == CompletedDays(records[..i])
    {
      assert records[..i + 1] == records[..i] + [records[i]];
      if records[i].completed {
        days := days + {DayKey(records[i])};
      }
    }
    assert records[..|records|] == records;
  }

  /** Days `lo`, `lo + 1`, ..., `lo + n - 1` are all in `cd`. */
  ghost predicate AllIn(cd: set<int>, lo: int, n: nat) {
    forall d :: lo <= d < lo + n ==> d in cd
  }

  /** `n` is the length of a longest run of consecutive days in `cd`. */
  ghost predicate IsLongestRun(cd: set<int>, n: nat) {
    (exists lo :: AllIn(cd, lo, n)) && forall lo, m: nat :: AllIn(cd, lo, m) ==> m <= n
  }

  /** How many consecutive days of `cd` end at `d`, counting back from `d`. */
  function RunBack(cd: set<int>, d: int): nat
    decreases |cd|
  {
    if d in cd then 1 + RunBack(cd - {d}, d - 1) else 0
  }

  /** A run counts distinct completed days, at least the first one when it is there. */
  lemma {:induction false} RunBackBound(cd: set<int>, d: int)
    ensures RunBack(cd, d) <= |cd|
    ensures d in cd ==> RunBack(cd, d) >= 1
    decreases |cd|
  {
    if d in cd {
      RunBackBound(cd - {d}, d - 1);
    }
  }

  lemma {:induction false} RunBackIsARun(cd: set<int>, d: int)
    ensures AllIn(cd, d - RunBack(cd, d) + 1, RunBack(cd, d))
    ensures d - RunBack(cd, d) !in cd
    decreases |cd|
  {
    if d in cd {
      RunBackIsARun(cd - {d}, d - 1);
      var n := RunBack(cd, d);
      forall x | d - n + 1 <= x < d - n + 1 + n
        ensures x in cd
      {
        if x != d {
          assert x in cd - {d};
        }
      }
    }
  }

  /** The current streak: the run of completed days ending today, or else yesterday. */
  function CurrentStreak(cd: set<int>, today: int): (n: nat)
    ensures n == 0 <==> today !in cd && today - 1 !in cd
    ensures n <= |cd|
  {
    RunBackBound(cd, today);
    RunBackBound(cd, today - 1);
    if today in cd then RunBack(cd, today)
    else if today - 1 in cd then RunBack(cd, today - 1)
    else 0
  }

  lemma CurrentStreakMeaning(cd: set<int>, today: int)
    ensures CurrentStreak(cd, today) == 0 <==> today !in cd && today - 1 !in cd
    ensures var n := CurrentStreak(cd, today);
      today in cd ==> AllIn(cd, today - n + 1, n) && today - n !in cd
    ensures var n := CurrentStreak(cd, today);
      today !in cd && today - 1 in cd ==> AllIn(cd, today - n, n) && today - 1 - n !in cd
  {
    RunBackIsARun(cd, today);
    RunBackIsARun(cd, today - 1);
  }

  predicate StrictlyDescending(s: seq<int>) {
    forall i, j :: 0 <= i < j < |s| ==> s[i] > s[j]
  }

  lemma {:induction false} HasMaximum(cd: set<int>)
    requires cd != {}
    ensures exists m :: m in cd && forall x :: x in cd ==> x <= m
    decreases |cd|
  {
    NonEmptyHasElement(cd);
    var y :| y in cd;
    if cd != {y} {
      var rest := cd - {y};
      HasMaximum(rest);
      var m :| m in rest && forall x :: x in rest ==> x <= m;
      var top := Max(y, m);
      assert |rest| < |cd| && top in cd;
      forall x | x in cd
        ensures x <= top
      {
        if x != y {
          assert x in rest;
        }
      }
    } else {
      forall x | x in cd
        ensures x <= y
      {
      }
    }
  }

  lemma NonEmptyHasElement(cd: set<int>)
    requires cd != {}
    ensures exists y :: y in cd
  {
    if forall y :: y !in cd {
      assert false;
    }
  }

  /** The latest day of a non-empty set. */
  function MaxOf(cd: set<int>): (m: int)
    requires cd != {}
    ensures m in cd && forall x :: x in cd ==> x <= m
  {
    HasMaximum(cd);
    var m :| m in cd && forall x :: x in cd ==> x <= m;
    m
  }

  /** `Array.from(completedDates).sort().reverse()`: the days, latest first. */
  function SortedDesc(cd: set<int>): (s: seq<int>)
    ensures |s| == |cd|
    ensures forall x :: x in s <==> x in cd
    ensures StrictlyDescending(s)
    decreases |cd|
  {
    if cd == {} then []
    else
      var m := MaxOf(cd);
      var rest := SortedDesc(cd - {m});
      PrependLargest(m, rest);
      assert forall x :: x in [m] + rest <==> x == m || x in rest;
      [m] + rest
  }

  lemma PrependLargest(m: int, rest: seq<int>)
    requires StrictlyDescending(rest) && forall x :: x in rest ==> x < m
    ensures StrictlyDescending([m] + rest)
  {
    var s := [m] + rest;
    forall i, j | 0 <= i < j < |s|
      ensures s[i] > s[j]
    {
      assert s[j] == rest[j - 1];
      if i > 0 {
        assert s[i] == rest[i - 1];
      } else {
        assert rest[j - 1] in rest;
      }
    }
  }

  /** `tempStreak` at index `j`: the length of the run of consecutive days ending there. */
  function ChainLen(s: seq<int>, j: nat): (n: nat)
    requires j < |s|
    ensures 1 <= n <= j + 1
  {
    if j == 0 || s[j - 1] - s[j] != 1 then 1 else ChainLen(s, j - 1) + 1
  }

  /** The longest chain ending before index `i`. */
  function MaxChain(s: seq<int>, i: nat): nat
    requires i <= |s|
  {
    if i == 0 then 0 else Max(MaxChain(s, i - 1), ChainLen(s, i - 1))
  }

  /** The longest chain before index `i` is at least every chain there and is attained by one. */
  lemma {:induction false} MaxChainBounds(s: seq<int>, i: nat)
    requires i <= |s|
    ensures forall j :: 0 <= j < i ==> ChainLen(s, j) <= MaxChain(s, i)
    ensures i > 0 ==> exists j :: 0 <= j < i && ChainLen(s, j) == MaxChain(s, i)
    ensures i == 0 ==> MaxChain(s, i) == 0
  {
    if i > 0 {
      MaxChainBounds(s, i - 1);
      if MaxChain(s, i - 1) >= ChainLen(s, i - 1) && i > 1 {
        var j :| 0 <= j < i - 1 && ChainLen(s, j) == MaxChain(s, i - 1);
        assert ChainLen(s, j) == MaxChain(s, i);
      } else {
        assert ChainLen(s, i - 1) == MaxChain(s, i);
      }
    }
  }

  lemma {:induction false} ChainIsRun(s: seq<int>, cd: set<int>, j: nat)
    requires j < |s| && forall x :: x in s ==> x in cd
    ensures AllIn(cd, s[j], ChainLen(s, j))
  {
    if j > 0 && s[j - 1] - s[j] == 1 {
      ChainIsRun(s, cd, j - 1);
      assert s[j] in s;
    } else {
      assert s[j] in s;
    }
  }

  lemma {:induction false} RunIsChain(s: seq<int>, cd: set<int>, lo: int, m: nat, j: nat)
    requires StrictlyDescending(s) && forall x :: x in cd ==> x in s
    requires 1 <= m && AllIn(cd, lo, m) && j < |s| && s[j] == lo
    ensures m <= ChainLen(s, j)
    decreases m
  {
    if m > 1 {
      assert lo + 1 in cd;
      var j' :| 0 <= j' < |s| && s[j'] == lo + 1;
      assert j' < j;
      assert s[j - 1] > s[j];
      assert j' == j - 1;
      assert AllIn(cd, lo + 1, m - 1);
      RunIsChain(s, cd, lo + 1, m - 1, j - 1);
    }
  }

  lemma MaxChainIsLongestRun(s: seq<int>, cd: set<int>)
    requires StrictlyDescending(s) && forall x :: x in s <==> x in cd
    ensures IsLongestRun(cd, MaxChain(s, |s|))
  {
    var n := MaxChain(s, |s|);
    MaxChainBounds(s, |s|);
    if |s| == 0 {
      assert AllIn(cd, 0, 0);
    } else {
      var j :| 0 <= j < |s| && ChainLen(s, j) == n;
      ChainIsRun(s, cd, j);
    }
    forall lo, m: nat | AllIn(cd, lo, m)
      ensures m <= n
    {
      if m > 0 {
        assert lo in cd;
        var j :| 0 <= j < |s| && s[j] == lo;
        RunIsChain(s, cd, lo, m, j);
      }
    }
  }

  /** The current streak is a run, so it is never longer than the longest one. */
  lemma CurrentAtMostLongest(cd: set<int>, today: int, longest: nat)
    requires IsLongestRun(cd, longest)
    ensures CurrentStreak(cd, today) <= longest
  {
    CurrentStreakMeaning(cd, today);
    var n := CurrentStreak(cd, today);
    if today in cd {
      assert AllIn(cd, today - n + 1, n);
    } else if today - 1 in cd {
      assert AllIn(cd, today - n, n);
    }
  }

  /** The `while (true)` loop of `calculateStreaks`: count back from today, or else yesterday. */
  method CountCurrentStreak(completedDates: set<int>, today: int) returns (current: nat)
    ensures current == CurrentStreak(completedDates, today)
  {
    current := 0;
    if today in completedDates || today - 1 in completedDates {
      var startDate := if today in completedDates then today else today - 1;
      var checkDate := startDate;
      ghost var rest := completedDates;
      while true
        invariant current + RunBack(rest, checkDate) == RunBack(completedDates, startDate)
        invariant forall x :: x <= checkDate ==> (x in rest <==> x in completedDates)
        decreases |rest|
      {
        if checkDate in completedDates {
          current := current + 1;
          rest := rest - {checkDate};
          checkDate := checkDate - 1;
        } else {
          break;
        }
      }
    }
  }

  function Elements(s: seq<int>): set<int> {
    set x | x in s
  }

  /** The `for` loop of `calculateStreaks` over the days, latest first. */
  method LongestStreak(sortedDates: seq<int>) returns (longest: nat)
    requires StrictlyDescending(sortedDates)
    ensures IsLongestRun(Elements(sortedDates), longest)
  {
    longest := 0;
    var tempStreak := 0;
    for i := 0 to |sortedDates|
      invariant i > 0 ==> tempStreak == ChainLen(sortedDates, i - 1)
      invariant i > 0 ==> Max(longest, tempStreak) == MaxChain(sortedDates, i)
      invariant i == 0 ==> longest == 0 && tempStreak == 0
    {
      if i == 0 {
        StreakStart(sortedDates);
        tempStreak := 1;
      } else {
        var diffDays := (sortedDates[i - 1] * MsPerDay - sortedDates[i] * MsPerDay) / MsPerDay;
        DayGap(sortedDates[i - 1], sortedDates[i]);
        StreakStep(sortedDates, i, longest, tempStreak);
        if diffDays == 1 {
          tempStreak := tempStreak + 1;
        } else {
          longest := Max(longest, tempStreak);
          tempStreak := 1;
        }
      }
    }
    longest := Max(longest, tempStreak);
    MaxChainIsLongestRun(sortedDates, Elements(sortedDates));
  }

  /** The whole days between the starts of two days. */
  lemma DayGap(a: int, b: int)
    ensures (a * MsPerDay - b * MsPerDay) / MsPerDay == a - b
  {
    assert a * MsPerDay - b * MsPerDay == (a - b) * MsPerDay;
    DivModUnique((a - b) * MsPerDay, MsPerDay, a - b, 0);
  }

  /** The first day starts a chain of one. */
  lemma StreakStart(s: seq<int>)
    requires 0 < |s|
    ensures ChainLen(s, 0) == 1 && Max(0, 1) == MaxChain(s, 1)
  {
  }

  /** One turn of the streak loop: a one-day gap extends the chain, any other gap starts a new one. */
  lemma StreakStep(s: seq<int>, i: nat, longest: int, temp: int)
    requires 0 < i < |s|
    requires temp == ChainLen(s, i - 1) && Max(longest, temp) == MaxChain(s, i)
    ensures s[i - 1] - s[i] == 1 ==> temp + 1 == ChainLen(s, i) && Max(longest, temp + 1) == MaxChain(s, i + 1)
    ensures s[i - 1] - s[i] != 1 ==> 1 == ChainLen(s, i) && Max(Max(longest, temp), 1) == MaxChain(s, i + 1)
  {
  }

  /** `calculateStreaks`: the current and the longest streak of completed days. */
  method CalculateStreaks(records: seq<FastingRecord>, today: int) returns (current: nat, longest: nat)
    ensures current == CurrentStreak(CompletedDays(records), today)
    ensures IsLongestRun(CompletedDays(records), longest)
    ensures current <= longest
  {
    if |records| == 0 {
      MaxChainIsLongestRun([], CompletedDays(records));
      return 0, 0;
    }
    var completedDates := CollectCompletedDays(records);
    var sortedDates := SortedDesc(completedDates);
    if |sortedDates| == 0 {
      MaxChainIsLongestRun([], completedDates);
      return 0, 0;
    }
    current := CountCurrentStreak(completedDates, today);
    longest := LongestStreak(sortedDates);
    assert Elements(sortedDates) == completedDates;
    CurrentAtMostLongest(completedDates, today, longest);
  }

  /** Completed fasts on the three days ending today: both streaks are 3. */
  lemma ThreeDayStreak(today: int)
    ensures CurrentStreak({today - 2, today - 1, today}, today) == 3
    ensures IsLongestRun({today - 2, today - 1, today}, 3)
  {
    var cd := {today - 2, today - 1, today};
    var one, two := {today - 2}, {today - 2, today - 1};
    assert one - {today - 2} == {};
    assert RunBack(one, today - 2) == 1 + RunBack({}, today - 3) == 1;
    assert two - {today - 1} == one;
    assert RunBack(two, today - 1) == 2;
    assert cd - {today} == two;
    assert RunBack(cd, today) == 3;
    var s := SortedDesc(cd);
    assert s[0] > s[1] > s[2];
    assert s == [today, today - 1, today - 2];
    assert ChainLen(s, 2) == 3;
    MaxChainBounds(s, 3);
    MaxChainIsLongestRun(s, cd);
  }

  // ---------------------------------------------------------------------
  // stats and weeklyStats
  // ---------------------------------------------------------------------

  /** `filter(r => r.completed).length`. */
  function CountCompleted(rs: seq<FastingRecord>): (n: nat)
    ensures n <= |rs|
    ensures n == |rs| <==> forall r :: r in rs ==> r.completed
    ensures n == 0 <==> forall r :: r in rs ==> !r.completed
  {
    if rs == [] then 0
    else
      assert forall r :: r in rs <==> r == rs[0] || r in rs[1..];
      (if rs[0].completed then 1 else 0) + CountCompleted(rs[1..])
  }

  /** `reduce((sum, r) => sum + r.actualDuration, 0)`. */
  function TotalDuration(rs: seq<FastingRecord>): (t: int)
    ensures (forall i :: 0 <= i < |rs| ==> rs[i].actualDuration >= 0) ==> t >= 0
    ensures (forall i :: 0 <= i < |rs| ==> rs[i].actualDuration == 0) ==> t == 0
  {
    if rs == [] then 0 else rs[0].actualDuration + TotalDuration(rs[1..])
  }

  /** `Math.round(a / b)` for a positive `b`: the nearest integer, halves rounded up. */
  function RoundQuotient(a: int, b: int): (q: int)
    requires b > 0
    ensures 2 * b * q <= 2 * a + b < 2 * b * (q + 1)
  {
    var d := 2 * b;
    var n := 2 * a + b;
    assert n == d * (n / d) + n % d;
    n / d
  }

  /** The success rate: the percentage of completed records, rounded; 0 without records. */
  function SuccessRate(completed: int, total: int): (rate: int)
    requires 0 <= completed <= total
    ensures total == 0 ==> rate == 0
    ensures total > 0 ==> 2 * total * rate <= 200 * completed + total < 2 * total * (rate + 1)
    ensures 0 <= rate <= 100
    ensures completed == 0 ==> rate == 0
    ensures 0 < completed == total ==> rate == 100
  {
    if total > 0 then
      PercentageBounds(completed, total);
      RoundQuotient(100 * completed, total)
    else 0
  }

  lemma PercentageBounds(completed: int, total: int)
    requires 0 <= completed <= total && total > 0
    ensures var rate := RoundQuotient(100 * completed, total);
      0 <= rate <= 100 && (completed == 0 ==> rate == 0) && (completed == total ==> rate == 100)
  {
    var rate := RoundQuotient(100 * completed, total);
    MulCancel(2 * total, rate, 101);
    MulCancel(2 * total, -1, rate);
    if completed == total {
      MulCancel(2 * total, 99, rate);
    }
    if completed == 0 {
      MulCancel(2 * total, rate, 1);
    }
  }

  /** The average duration in minutes, rounded; 0 without records. */
  function AverageDuration(sum: int, count: int): (avg: int)
    requires count >= 0
    ensures count == 0 ==> avg == 0
    ensures count > 0 ==> 2 * count * avg <= 2 * sum + count < 2 * count * (avg + 1)
  {
    if count > 0 then RoundQuotient(sum, count) else 0
  }

  /** Dividing both sides of a strict inequality by a positive factor. */
  lemma MulCancel(c: int, x: int, y: int)
    requires c > 0 && c * x < c * y
    ensures x < y
  {
  }

  /** The four figures the hook computes over a list of records. */
  datatype Summary = Summary(totalCount: int, completedCount: int, successRate: int, averageDuration: int)

  function Summarize(rs: seq<FastingRecord>): (w: Summary)
    ensures w.totalCount == |rs| && 0 <= w.completedCount <= w.totalCount
    ensures 0 <= w.successRate <= 100
    ensures w.totalCount == 0 ==> w.successRate == 0 && w.averageDuration == 0
  {
    var completed := CountCompleted(rs);
    Summary(|rs|, completed, SuccessRate(completed, |rs|), AverageDuration(TotalDuration(rs), |rs|))
  }

  lemma {:induction false} DurationBounds(rs: seq<FastingRecord>, lo: int, hi: int)
    requires forall r :: r in rs ==> lo <= r.actualDuration <= hi
    ensures |rs| * lo <= TotalDuration(rs) <= |rs| * hi
  {
    if rs != [] {
      var n := |rs[1..]|;
      assert rs[0] in rs;
      DurationBounds(rs[1..], lo, hi);
      MulSucc(n, lo);
      MulSucc(n, hi);
    }
  }

  lemma MulSucc(n: int, x: int)
    ensures (n + 1) * x == n * x + x
  {
  }

  /** The average lies between the shortest and the longest recorded duration. */
  lemma AverageWithinBounds(rs: seq<FastingRecord>, lo: int, hi: int)
    requires rs != [] && forall r :: r in rs ==> lo <= r.actualDuration <= hi
    ensures lo <= Summarize(rs).averageDuration <= hi
  {
    DurationBounds(rs, lo, hi);
    RoundedMeanBounds(TotalDuration(rs), |rs|, lo, hi, Summarize(rs).averageDuration);
  }

  lemma RoundedMeanBounds(sum: int, n: int, lo: int, hi: int, avg: int)
    requires n > 0 && n * lo <= sum <= n * hi
    requires 2 * n * avg <= 2 * sum + n < 2 * n * (avg + 1)
    ensures lo <= avg <= hi
  {
    assert 2 * n * (hi + 1) == 2 * (n * hi) + 2 * n;
    MulCancel(2 * n, avg, hi + 1);
    assert 2 * n * (lo - 1) == 2 * (n * lo) - 2 * n;
    MulCancel(2 * n, lo - 1, avg + 1);
  }

  /** All fasts completed means a 100% rate, none completed means 0%. */
  lemma SuccessRateExtremes(rs: seq<FastingRecord>)
    ensures rs != [] && (forall r :: r in rs ==> r.completed) ==> Summarize(rs).successRate == 100
    ensures (forall r :: r in rs ==> !r.completed) ==> Summarize(rs).successRate == 0
  {
  }

  /** `stats`: counts, rate and average over the whole history, with both streaks. */
  method Stats(records: seq<FastingRecord>, today: int) returns (s: FastingStats)
    ensures s.totalFasts == |records| && s.completedFasts == CountCompleted(records)
    ensures s.successRate == Summarize(records).successRate
    ensures s.averageDuration == Summarize(records).averageDuration
    ensures s.currentStreak == CurrentStreak(CompletedDays(records), today)
    ensures s.longestStreak >= 0 && IsLongestRun(CompletedDays(records), s.longestStreak)
    ensures s.currentStreak <= s.longestStreak
  {
    var current, longest := CalculateStreaks(records, today);
    var w := Summarize(records);
    s := FastingStats(w.totalCount, w.completedCount, current, longest, w.averageDuration, w.successRate);
  }

  /** The records started between `from` and `to`, both included, in list order. */
  function InWindow(rs: seq<FastingRecord>, from: int, to: int): (w: seq<FastingRecord>)
    ensures |w| <= |rs|
    ensures forall r :: r in w <==> r in rs && from <= r.startTime <= to
  {
    if rs == [] then []
    else
      assert forall r :: r in rs <==> r == rs[0] || r in rs[1..];
      (if from <= rs[0].startTime <= to then [rs[0]] else []) + InWindow(rs[1..], from, to)
  }

  /** The number of the Sunday-to-Saturday week an instant falls in. */
  function WeekIndex(t: int): int {
    (t / MsPerDay + 4) / 7
  }

  /** Weeks begin on Sunday: the day before changes week exactly on Sundays. */
  lemma WeeksStartOnSunday(t: int)
    ensures DayOfWeek(t) != 0 ==> WeekIndex(t - MsPerDay) == WeekIndex(t)
    ensures DayOfWeek(t) == 0 ==> WeekIndex(t - MsPerDay) == WeekIndex(t) - 1
  {
    assert (t - MsPerDay) / MsPerDay == t / MsPerDay - 1;
  }

  /** The records started in the same week as `now`, in list order. */
  function InWeekOf(rs: seq<FastingRecord>, now: int): (w: seq<FastingRecord>)
    ensures |w| <= |rs|
    ensures forall r :: r in w <==> r in rs && WeekIndex(r.startTime) == WeekIndex(now)
  {
    if rs == [] then []
    else
      assert forall r :: r in rs <==> r == rs[0] || r in rs[1..];
      (if WeekIndex(rs[0].startTime) == WeekIndex(now) then [rs[0]] else []) + InWeekOf(rs[1..], now)
  }

  /** `getWeekStart` .. `getWeekEnd` around `now` is exactly the week of `now`. */
  lemma WindowIsWeek(weekStart: int, weekEnd: int, now: int, t: int)
    requires DayOfWeek(weekStart) == 0 && weekStart % MsPerDay == 0
    requires weekStart <= now < weekStart + 7 * MsPerDay
    requires DayOfWeek(weekEnd) == 6 && weekEnd % MsPerDay == MsPerDay - 1
    requires weekEnd - 7 * MsPerDay < now <= weekEnd
    ensures weekStart <= t <= weekEnd <==> WeekIndex(t) == WeekIndex(now)
  {
    var first, today := weekStart / MsPerDay, now / MsPerDay;
    WeekBounds(weekStart, weekEnd, now);
    WithinDays(t, first);
    SameWeek(first, today);
    SameWeek(first, t / MsPerDay);
  }

  /** The window runs from the start of its Sunday to the end of the Saturday six days on. */
  lemma WeekBounds(weekStart: int, weekEnd: int, now: int)
    requires DayOfWeek(weekStart) == 0 && DayOfWeek(weekEnd) == 6
    requires weekStart % MsPerDay == 0 && weekStart <= now < weekStart + 7 * MsPerDay
    requires weekEnd % MsPerDay == MsPerDay - 1 && weekEnd - 7 * MsPerDay < now <= weekEnd
    ensures weekStart == (weekStart / MsPerDay) * MsPerDay
    ensures weekEnd == (weekStart / MsPerDay + 7) * MsPerDay - 1
    ensures weekStart / MsPerDay <= now / MsPerDay <= weekStart / MsPerDay + 6
  {
    var first, last, today := weekStart / MsPerDay, weekEnd / MsPerDay, now / MsPerDay;
    assert first <= today <= first + 6;
    assert last - 6 <= today <= last;
    assert last == first + 6;
  }

  /** An instant falls in days `first` .. `first + 6` exactly when it lies between their bounds. */
  lemma WithinDays(t: int, first: int)
    ensures first * MsPerDay <= t <= (first + 7) * MsPerDay - 1 <==> first <= t / MsPerDay <= first + 6
  {
  }

  /** The seven days from a Sunday `first` are exactly the days of its week. */
  lemma SameWeek(first: int, day: int)
    requires (first + 4) % 7 == 0
    ensures first <= day <= first + 6 <==> (day + 4) / 7 == (first + 4) / 7
  {
    var w := (first + 4) / 7;
    assert first + 4 == 7 * w;
    var q := (day + 4) / 7;
    assert 7 * q <= day + 4 < 7 * q + 7;
  }

  lemma {:induction false} InWindowIsInWeek(rs: seq<FastingRecord>, weekStart: int, weekEnd: int, now: int)
    requires DayOfWeek(weekStart) == 0 && weekStart % MsPerDay == 0
    requires weekStart <= now < weekStart + 7 * MsPerDay
    requires DayOfWeek(weekEnd) == 6 && weekEnd % MsPerDay == MsPerDay - 1
    requires weekEnd - 7 * MsPerDay < now <= weekEnd
    ensures InWindow(rs, weekStart, weekEnd) == InWeekOf(rs, now)
  {
    if rs != [] {
      WindowIsWeek(weekStart, weekEnd, now, rs[0].startTime);
      InWindowIsInWeek(rs[1..], weekStart, weekEnd, now);
    }
  }

  /** `weeklyStats`: the figures over the records started in the current week. */
  method ThisWeekStats(records: seq<FastingRecord>, now: int) returns (w: Summary)
    ensures w == Summarize(InWeekOf(records, now))
    ensures w.totalCount <= |records|
  {
    var weekStart := GetWeekStart(now);
    var weekEnd := GetWeekEnd(now);
    var weekRecords := InWindow(records, weekStart, weekEnd);
    w := Summarize(weekRecords);
    InWindowIsInWeek(records, weekStart, weekEnd, now);
  }
}
