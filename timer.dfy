/**
 * The timer store: the state of the current fasting/eating cycle and the
 * append-only list of finished cycles. Each action overwrites some fields of
 * the store, as the store's `set` does; everything it does not name keeps its
 * value. The clock reading and the random part of a new record id are
 * parameters.
 */
module Timer {
  import opened Wrappers
  import opened Strings
  import opened Types

  /** `generateId`: the clock reading in decimal, a dash, then a random suffix. */
  function GenerateId(clock: int, randomSuffix: string): (id: string)
    ensures |id| > |IntToString(clock)| && id[|IntToString(clock)|] == '-'
    ensures id[..|IntToString(clock)|] == IntToString(clock)
  {
    IntToString(clock) + "-" + randomSuffix
  }

  /** `Math.floor(ms / 60000)`: whole minutes, rounded down (also for negative spans). */
  function FloorMinutes(ms: int): (m: int)
    ensures m * MsPerMinute <= ms < (m + 1) * MsPerMinute
  {
    ms / MsPerMinute
  }

  /**
   * The record `stopTimer` appends for a cycle that started at `start` and
   * ends at `now`: the fasting time actually done, the target, and whether
   * the fasting phase was completed.
   */
  function ClosingRecord(status: TimerStatus, start: int, targetEnd: Option<int>, id: string,
                         isFastingCompleted: bool, planId: string, now: int): (r: FastingRecord)
    ensures r.id == id && r.planId == planId && r.startTime == start && r.endTime == Some(now)
    ensures r.completed <==> isFastingCompleted || status == Eating
    ensures targetEnd.None? ==> r.targetDuration == 0
    ensures targetEnd.Some? ==>
      r.targetDuration * MsPerMinute <= targetEnd.value - start < (r.targetDuration + 1) * MsPerMinute
    ensures status == Fasting ==>
      r.actualDuration * MsPerMinute <= now - start < (r.actualDuration + 1) * MsPerMinute
    ensures status != Fasting && targetEnd.Some? ==> r.actualDuration == r.targetDuration
    ensures status != Fasting && targetEnd.None? ==>
      r.actualDuration * MsPerMinute <= now - start < (r.actualDuration + 1) * MsPerMinute
  {
    var fastingEnd := targetEnd.GetOr(now);
    var actual := if status == Fasting then FloorMinutes(now - start) else FloorMinutes(fastingEnd - start);
    var target := if targetEnd.Some? then FloorMinutes(targetEnd.value - start) else 0;
    FastingRecord(id, planId, start, Some(now), target, actual, isFastingCompleted || status == Eating)
  }

  /**
   * Stopping during the fasting phase, before its target instant, records
   * less than the target whenever the target is a whole number of minutes
   * (as it is for whole-hour plans), and the record is not completed.
   */
  lemma EarlyStopFallsShort(start: int, targetEnd: int, id: string, planId: string, now: int)
    requires (targetEnd - start) % MsPerMinute == 0
    requires start <= now < targetEnd
    ensures var r := ClosingRecord(Fasting, start, Some(targetEnd), id, false, planId, now);
      !r.completed && 0 <= r.actualDuration < r.targetDuration
  {
    var r := ClosingRecord(Fasting, start, Some(targetEnd), id, false, planId, now);
    assert r.targetDuration * MsPerMinute == targetEnd - start;
  }

  /** `records.filter(r => r.id !== recordId)`. */
  function WithoutId(records: seq<FastingRecord>, recordId: string): (rs: seq<FastingRecord>)
    ensures |rs| <= |records|
    ensures forall r :: r in rs <==> r in records && r.id != recordId
    ensures (forall i :: 0 <= i < |records| ==> records[i].id != recordId) ==> rs == records
  {
    if records == [] then []
    else
      var rest := WithoutId(records[1..], recordId);
      assert records == [records[0]] + records[1..];
      if records[0].id == recordId then rest else [records[0]] + rest
  }

  /** Filtering works piecewise, so the records that stay keep their order. */
  lemma {:induction false} WithoutIdSplits(a: seq<FastingRecord>, b: seq<FastingRecord>, recordId: string)
    ensures WithoutId(a + b, recordId) == WithoutId(a, recordId) + WithoutId(b, recordId)
  {
    if a != [] {
      assert (a + b)[1..] == a[1..] + b;
      WithoutIdSplits(a[1..], b, recordId);
    } else {
      assert a + b == b;
    }
  }

  /** Deleting only drops records: what stays is a sub-multiset of what was there. */
  lemma {:induction false} WithoutIdIsSubMultiset(records: seq<FastingRecord>, recordId: string)
    ensures multiset(WithoutId(records, recordId)) <= multiset(records)
  {
    if records != [] {
      assert records == [records[0]] + records[1..];
      WithoutIdIsSubMultiset(records[1..], recordId);
    }
  }

  class TimerStore {
    var status: TimerStatus
    var fastingStartTime: Option<int>
    var fastingTargetEndTime: Option<int>
    var eatingStartTime: Option<int>
    var eatingTargetEndTime: Option<int>
    var currentRecordId: Option<string>
    var isFastingCompleted: bool
    var records: seq<FastingRecord>

    /** The cycle fields hold `initialState`'s values. */
    predicate CycleIsIdle()
      reads this
    {
      && status == Idle
      && fastingStartTime == None && fastingTargetEndTime == None
      && eatingStartTime == None && eatingTargetEndTime == None
      && currentRecordId == None && !isFastingCompleted
    }

    /**
     * The phase invariant: idle means no cycle data; fasting means a started,
     * not yet completed cycle; eating means a cycle whose fasting phase is
     * completed. The actions keep it when used as the screens use them.
     */
    predicate Valid()
      reads this
      ensures Valid() ==> (status == Idle <==> currentRecordId.None?)
      ensures Valid() ==> (isFastingCompleted <==> status == Eating)
      ensures Valid() ==> (eatingStartTime.Some? <==> status == Eating)
    {
      match status
      case Idle => CycleIsIdle()
      case Fasting =>
        && fastingStartTime.Some? && fastingTargetEndTime.Some? && eatingTargetEndTime.Some?
        && eatingStartTime.None? && currentRecordId.Some? && currentRecordId.value != ""
        && !isFastingCompleted
      case Eating =>
        && fastingStartTime.Some? && fastingTargetEndTime.Some? && eatingTargetEndTime.Some?
        && eatingStartTime.Some? && currentRecordId.Some? && currentRecordId.value != ""
        && isFastingCompleted
    }

    /** The store as first created: `initialState`. */
    constructor ()
      ensures CycleIsIdle() && records == [] && Valid()
    {
      status := Idle;
      fastingStartTime, fastingTargetEndTime := None, None;
      eatingStartTime, eatingTargetEndTime := None, None;
      currentRecordId := None;
      isFastingCompleted := false;
      records := [];
    }

    /** `startFasting`: open a cycle at `now`, whatever the current state. */
    method StartFasting(fastingHours: int, eatingHours: int, now: int, randomSuffix: string)
      modifies this
      ensures status == Fasting
      ensures fastingStartTime == Some(now)
      ensures fastingTargetEndTime == Some(now + fastingHours * MsPerHour)
      ensures eatingStartTime == None
      ensures eatingTargetEndTime == Some(now + fastingHours * MsPerHour + eatingHours * MsPerHour)
      ensures currentRecordId == Some(GenerateId(now, randomSuffix))
      ensures !isFastingCompleted
      ensures records == old(records)
      ensures Valid()
    {
      var fastingEnd := now + fastingHours * MsPerHour;
      var eatingEnd := fastingEnd + eatingHours * MsPerHour;
      var recordId := GenerateId(now, randomSuffix);
      status := Fasting;
      fastingStartTime := Some(now);
      fastingTargetEndTime := Some(fastingEnd);
      eatingStartTime := None;
      eatingTargetEndTime := Some(eatingEnd);
      currentRecordId := Some(recordId);
      isFastingCompleted := false;
    }

    /** `transitionToEating`: the eating window is re-anchored at `now`; the fasting fields stay. */
    method TransitionToEating(eatingHours: int, now: int)
      modifies this
      ensures status == Eating
      ensures eatingStartTime == Some(now)
      ensures eatingTargetEndTime == Some(now + eatingHours * MsPerHour)
      ensures isFastingCompleted
      ensures fastingStartTime == old(fastingStartTime)
      ensures fastingTargetEndTime == old(fastingTargetEndTime)
      ensures currentRecordId == old(currentRecordId)
      ensures records == old(records)
      ensures old(status) != Idle && old(Valid()) ==> Valid()
    {
      status := Eating;
      eatingStartTime := Some(now);
      eatingTargetEndTime := Some(now + eatingHours * MsPerHour);
      isFastingCompleted := true;
    }

    /**
     * `stopTimer`: without a start time or a (non-empty) record id nothing
     * happens; otherwise the cycle's record is appended and the cycle fields
     * return to their initial values.
     */
    method StopTimer(planId: string, now: int)
      modifies this
      ensures old(fastingStartTime).None? || old(currentRecordId).None? || old(currentRecordId) == Some("")
        ==> unchanged(this)
      ensures old(fastingStartTime).Some? && old(currentRecordId).Some? && old(currentRecordId) != Some("")
        ==> CycleIsIdle()
            && records == old(records) + [ClosingRecord(old(status), old(fastingStartTime).value,
                 old(fastingTargetEndTime), old(currentRecordId).value, old(isFastingCompleted), planId, now)]
      ensures old(status) != Idle && old(Valid()) ==> |records| == |old(records)| + 1
      ensures old(Valid()) ==> Valid()
    {
      if fastingStartTime.None? || currentRecordId.None? || currentRecordId.value == "" {
        return;
      }
      var newRecord := ClosingRecord(status, fastingStartTime.value, fastingTargetEndTime,
                                     currentRecordId.value, isFastingCompleted, planId, now);
      status := Idle;
      fastingStartTime, fastingTargetEndTime := None, None;
      eatingStartTime, eatingTargetEndTime := None, None;
      currentRecordId := None;
      isFastingCompleted := false;
      records := records + [newRecord];
    }

    /** `deleteRecord`: drop every record with that id; nothing else changes. */
    method DeleteRecord(recordId: string)
      modifies this`records
      ensures records == WithoutId(old(records), recordId)
      ensures forall r :: r in records ==> r.id != recordId
      ensures old(Valid()) ==> Valid()
    {
      records := WithoutId(records, recordId);
    }

    /** `reset`: back to `initialState`, history included. */
    method Reset()
      modifies this
      ensures CycleIsIdle() && records == [] && Valid()
    {
      status := Idle;
      fastingStartTime, fastingTargetEndTime := None, None;
      eatingStartTime, eatingTargetEndTime := None, None;
      currentRecordId := None;
      isFastingCompleted := false;
      records := [];
    }
  }

  /**
   * A full cycle on a fresh store: start, switch to eating when the fast is
   * over, stop later. The one record is completed and records exactly the
   * planned fasting time.
   */
  method CompletedCycle(fastingHours: int, eatingHours: int, start: int, randomSuffix: string,
                        switchAt: int, stopAt: int, planId: string) returns (r: FastingRecord)
    ensures r.completed
    ensures r.actualDuration == r.targetDuration == fastingHours * 60
    ensures r.id == GenerateId(start, randomSuffix) && r.planId == planId
    ensures r.startTime == start && r.endTime == Some(stopAt)
  {
    var store := new TimerStore();
    store.StartFasting(fastingHours, eatingHours, start, randomSuffix);
    store.TransitionToEating(eatingHours, switchAt);
    store.StopTimer(planId, stopAt);
    r := store.records[|store.records| - 1];
  }

  /**
   * A cycle stopped during the fast, before its target: the one record is not
   * completed and holds the whole minutes fasted, fewer than the target.
   */
  method StoppedEarly(fastingHours: int, eatingHours: int, start: int, randomSuffix: string,
                      stopAt: int, planId: string) returns (r: FastingRecord)
    requires start <= stopAt < start + fastingHours * MsPerHour
    ensures !r.completed
    ensures r.actualDuration == (stopAt - start) / MsPerMinute
    ensures 0 <= r.actualDuration < r.targetDuration == fastingHours * 60
  {
    var store := new TimerStore();
    store.StartFasting(fastingHours, eatingHours, start, randomSuffix);
    store.StopTimer(planId, stopAt);
    r := store.records[|store.records| - 1];
    var targetEnd := start + fastingHours * MsPerHour;
    assert r == ClosingRecord(Fasting, start, Some(targetEnd), r.id, false, planId, stopAt);
    DivModUnique(targetEnd - start, MsPerMinute, fastingHours * 60, 0);
    EarlyStopFallsShort(start, targetEnd, r.id, planId, stopAt);
  }

  /** The 16:8 examples: a completed cycle records 960 minutes, a stop after 5 hours records 300 of 960. */
  lemma SixteenEightExamples(start: int, id: string, planId: string)
    ensures var r := ClosingRecord(Eating, start, Some(start + 16 * MsPerHour), id, true, planId, start + 24 * MsPerHour);
      r.completed && r.actualDuration == 960 && r.targetDuration == 960
    ensures var r := ClosingRecord(Fasting, start, Some(start + 16 * MsPerHour), id, false, planId, start + 5 * MsPerHour);
      !r.completed && r.actualDuration == 300 && r.targetDuration == 960
  {
  }
}
