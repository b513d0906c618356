/**
 * The notification hook: permission queries, the two local notifications a
 * fast schedules (the end of the fast, and a reminder half an hour before the
 * eating window closes), and the record of the identifiers it scheduled.
 * The operating system's side (the permission it holds, the notifications it
 * has pending, the identifiers it hands out) is state of the model; whether
 * the notification module is loaded at all is fixed when the hook is made.
 */
module Notifications {
  import opened Wrappers
  import opened Types

  datatype PermissionStatus = Granted | Denied | Undetermined

  /** The two keys of the identifier record, one per message. */
  datatype NotificationKey = FastingEndKey | EatingReminderKey

  function Title(key: NotificationKey): string {
    match key
    case FastingEndKey => "단식 완료!"
    case EatingReminderKey => "식사 시간 알림"
  }

  function Body(key: NotificationKey): string {
    match key
    case FastingEndKey => "단식 완료! 식사를 시작하세요 🎉"
    case EatingReminderKey => "30분 후 단식이 시작됩니다 🍽️"
  }

  /** A notification the system holds, with the identifier it handed out. */
  datatype PendingNotification = PendingNotification(id: nat, key: NotificationKey, title: string, body: string, trigger: int)

  /** The identifier record (`scheduledIdsRef.current`). */
  datatype ScheduledIds = ScheduledIds(fastingEnd: Option<nat>, eatingReminder: Option<nat>)

  const ReminderLeadMs: int := 30 * MsPerMinute

  /** When the fast started at `start` reaches its target. */
  function FastingEndAt(start: int, plan: FastingPlan): (t: int)
    ensures plan.fastingHours >= 0 ==> t >= start
    ensures plan.fastingHours > 0 ==> t > start
  {
    start + plan.fastingHours * 60 * 60 * 1000
  }

  /** The end of the fast lies a whole number of hours, the plan's fasting hours, after its start. */
  lemma FastingEndInWholeHours(start: int, plan: FastingPlan)
    ensures (FastingEndAt(start, plan) - start) % MsPerHour == 0
    ensures (FastingEndAt(start, plan) - start) / MsPerHour == plan.fastingHours
  {
  }

  /** Half an hour before the eating window of that cycle closes. */
  function EatingReminderAt(start: int, plan: FastingPlan): (t: int)
    ensures t + ReminderLeadMs == FastingEndAt(start, plan) + plan.eatingHours * MsPerHour
    ensures plan.eatingHours >= 1 ==> t > FastingEndAt(start, plan)
  {
    start + plan.fastingHours * 60 * 60 * 1000 + plan.eatingHours * 60 * 60 * 1000 - 30 * 60 * 1000
  }

  /**
   * What `scheduleNotifications` leaves pending, in order: each enabled
   * notification whose instant is still ahead of `now`.
   */
  function PlannedNotices(start: int, plan: FastingPlan, settings: NotificationSettings, now: int): (ps: seq<(NotificationKey, int)>)
    ensures |ps| <= 2
    ensures forall i :: 0 <= i < |ps| ==> ps[i].1 > now
    ensures (FastingEndKey, FastingEndAt(start, plan)) in ps <==> settings.fastingEnd && FastingEndAt(start, plan) > now
    ensures (EatingReminderKey, EatingReminderAt(start, plan)) in ps
      <==> settings.eatingReminder && EatingReminderAt(start, plan) > now
    ensures forall i :: 0 <= i < |ps| ==>
      ps[i] == (FastingEndKey, FastingEndAt(start, plan)) || ps[i] == (EatingReminderKey, EatingReminderAt(start, plan))
  {
    (if settings.fastingEnd && FastingEndAt(start, plan) > now then [(FastingEndKey, FastingEndAt(start, plan))] else [])
    + (if settings.eatingReminder && EatingReminderAt(start, plan) > now
       then [(EatingReminderKey, EatingReminderAt(start, plan))] else [])
  }

  /** With an eating window of an hour or more, the reminder comes after the end of the fast. */
  lemma ReminderFollowsFastingEnd(start: int, plan: FastingPlan)
    requires plan.eatingHours >= 1
    ensures FastingEndAt(start, plan) < EatingReminderAt(start, plan)
    ensures EatingReminderAt(start, plan) + ReminderLeadMs == start + (plan.fastingHours + plan.eatingHours) * MsPerHour
  {
  }

  /** Starting a 16:8 fast with both notifications on: the end at +16 h and the reminder at +23 h 30 min. */
  lemma SixteenEightNotices(start: int, plan: FastingPlan)
    requires plan.fastingHours == 16 && plan.eatingHours == 8
    ensures PlannedNotices(start, plan, NotificationSettings(true, true), start)
      == [(FastingEndKey, start + 16 * MsPerHour), (EatingReminderKey, start + 23 * MsPerHour + 30 * MsPerMinute)]
  {
  }

  /** The key and the instant of each pending notification. */
  function Notices(pending: seq<PendingNotification>): (ns: seq<(NotificationKey, int)>)
    ensures |ns| == |pending|
    ensures forall i :: 0 <= i < |pending| ==> ns[i] == (pending[i].key, pending[i].trigger)
  {
    seq(|pending|, i requires 0 <= i < |pending| => (pending[i].key, pending[i].trigger))
  }

  /** `id` names a pending notification with that key. */
  predicate Names(pending: seq<PendingNotification>, id: Option<nat>, key: NotificationKey) {
    id.Some? ==> exists i :: 0 <= i < |pending| && pending[i].id == id.value && pending[i].key == key
  }

  /**
   * Identifiers are handed out once each, and the identifier record only
   * names notifications that are still pending, under their own key.
   */
  predicate Consistent(pending: seq<PendingNotification>, issued: nat, ids: ScheduledIds) {
    && (forall i :: 0 <= i < |pending| ==> pending[i].id < issued)
    && (forall i, j :: 0 <= i < j < |pending| ==> pending[i].id != pending[j].id)
    && Names(pending, ids.fastingEnd, FastingEndKey)
    && Names(pending, ids.eatingReminder, EatingReminderKey)
  }

  /**
   * Appending a notification under the next unused identifier keeps the
   * bookkeeping consistent: this is what `ScheduleNotification` does to a
   * valid hook.
   */
  lemma AppendKeepsConsistent(pending: seq<PendingNotification>, issued: nat, ids: ScheduledIds, n: PendingNotification)
    requires Consistent(pending, issued, ids) && n.id == issued
    ensures Consistent(pending + [n], issued + 1, ids)
  {
    var after := pending + [n];
    assert forall i :: 0 <= i < |pending| ==> after[i] == pending[i];
    if ids.fastingEnd.Some? {
      var i :| 0 <= i < |pending| && pending[i].id == ids.fastingEnd.value && pending[i].key == FastingEndKey;
      assert after[i] == pending[i];
    }
    if ids.eatingReminder.Some? {
      var i :| 0 <= i < |pending| && pending[i].id == ids.eatingReminder.value && pending[i].key == EatingReminderKey;
      assert after[i] == pending[i];
    }
  }

  /** The notifications `scheduleNotifications` leaves pending when the next identifier is `first`. */
  function ScheduledFrom(first: nat, start: int, plan: FastingPlan, settings: NotificationSettings, now: int)
    : (ps: seq<PendingNotification>)
    ensures |ps| <= 2
    ensures |ps| == 2 ==> ps[0].key == FastingEndKey && ps[1].key == EatingReminderKey
  {
    var fe, er := FastingEndAt(start, plan), EatingReminderAt(start, plan);
    var f := if settings.fastingEnd && fe > now
      then [PendingNotification(first, FastingEndKey, Title(FastingEndKey), Body(FastingEndKey), fe)] else [];
    var r := if settings.eatingReminder && er > now
      then [PendingNotification(first + |f|, EatingReminderKey, Title(EatingReminderKey), Body(EatingReminderKey), er)]
      else [];
    f + r
  }

  /** The identifier record `scheduleNotifications` leaves when the next identifier is `first`. */
  function IdsFrom(first: nat, start: int, plan: FastingPlan, settings: NotificationSettings, now: int): (ids: ScheduledIds)
    ensures ids.fastingEnd.Some? ==> ids.fastingEnd.value == first
    ensures ids.eatingReminder.Some? ==> ids.eatingReminder.value == if ids.fastingEnd.Some? then first + 1 else first
  {
    var f := settings.fastingEnd && FastingEndAt(start, plan) > now;
    var r := settings.eatingReminder && EatingReminderAt(start, plan) > now;
    ScheduledIds(if f then Some(first) else None, if r then Some(if f then first + 1 else first) else None)
  }

  /**
   * After `scheduleNotifications` exactly the planned notifications are
   * pending, under fresh consecutive identifiers, and the record names each
   * of them under its key.
   */
  lemma ScheduledFromMeaning(first: nat, start: int, plan: FastingPlan, settings: NotificationSettings, now: int)
    ensures var ps := ScheduledFrom(first, start, plan, settings, now);
      && Notices(ps) == PlannedNotices(start, plan, settings, now)
      && (forall i :: 0 <= i < |ps| ==> ps[i].id == first + i)
      && (forall i :: 0 <= i < |ps| ==> ps[i].title == Title(ps[i].key) && ps[i].body == Body(ps[i].key))
    ensures var ps, ids := ScheduledFrom(first, start, plan, settings, now), IdsFrom(first, start, plan, settings, now);
      && (ids.fastingEnd.Some? <==> settings.fastingEnd && FastingEndAt(start, plan) > now)
      && (ids.eatingReminder.Some? <==> settings.eatingReminder && EatingReminderAt(start, plan) > now)
      && Consistent(ps, first + |ps|, ids)
  {
    ScheduledNotices(first, start, plan, settings, now);
    ScheduledIdsConsistent(first, start, plan, settings, now);
  }

  /**
   * The scheduled notifications are the planned ones, numbered on from
   * `first`, each with the title and body of its own key.
   */
  lemma ScheduledNotices(first: nat, start: int, plan: FastingPlan, settings: NotificationSettings, now: int)
    ensures var ps := ScheduledFrom(first, start, plan, settings, now);
      && Notices(ps) == PlannedNotices(start, plan, settings, now)
      && (forall i :: 0 <= i < |ps| ==> ps[i].id == first + i)
      && (forall i :: 0 <= i < |ps| ==> ps[i].title == Title(ps[i].key) && ps[i].body == Body(ps[i].key))
  {
    var ps := ScheduledFrom(first, start, plan, settings, now);
    var fe, er := FastingEndAt(start, plan), EatingReminderAt(start, plan);
    var f, r := settings.fastingEnd && fe > now, settings.eatingReminder && er > now;
    if f && r {
      assert Notices(ps) == [(FastingEndKey, fe), (EatingReminderKey, er)];
    } else if f {
      assert Notices(ps) == [(FastingEndKey, fe)];
    } else if r {
      assert Notices(ps) == [(EatingReminderKey, er)];
    } else {
      assert Notices(ps) == [];
    }
  }

  /** The identifiers scheduled from `first` are fresh and the record names them under their keys. */
  lemma ScheduledIdsConsistent(first: nat, start: int, plan: FastingPlan, settings: NotificationSettings, now: int)
    ensures var ps := ScheduledFrom(first, start, plan, settings, now);
      Consistent(ps, first + |ps|, IdsFrom(first, start, plan, settings, now))
  {
    var ps := ScheduledFrom(first, start, plan, settings, now);
    var ids := IdsFrom(first, start, plan, settings, now);
    if ids.fastingEnd.Some? {
      assert ps[0].id == first && ps[0].key == FastingEndKey;
    }
    if ids.eatingReminder.Some? {
      assert ps[|ps| - 1].id == ids.eatingReminder.value && ps[|ps| - 1].key == EatingReminderKey;
    }
  }

  class NotificationHook {
    /** False in the environment where the notification module is not loaded. */
    const moduleLoaded: bool
    var permission: PermissionStatus
    var pending: seq<PendingNotification>
    var issued: nat
    var ids: ScheduledIds

    predicate Valid()
      reads this
    {
      Consistent(pending, issued, ids)
    }

    constructor (moduleLoaded: bool, permission: PermissionStatus)
      ensures this.moduleLoaded == moduleLoaded && this.permission == permission
      ensures pending == [] && issued == 0 && ids == ScheduledIds(None, None) && Valid()
    {
      this.moduleLoaded := moduleLoaded;
      this.permission := permission;
      pending := [];
      issued := 0;
      ids := ScheduledIds(None, None);
    }

    /** `getPermissionStatus`: the system's answer, or undetermined without the module. */
    function GetPermissionStatus(): (status: PermissionStatus)
      reads this
      ensures !moduleLoaded ==> status == Undetermined
      ensures moduleLoaded ==> status == permission
    {
      if moduleLoaded then permission else Undetermined
    }

    /**
     * `requestPermissions`: a granted permission is kept; otherwise the user
     * is asked and `userAnswer` becomes the system's permission.
     */
    method RequestPermissions(userAnswer: PermissionStatus) returns (status: PermissionStatus)
      modifies this`permission
      ensures !moduleLoaded ==> status == Undetermined && permission == old(permission)
      ensures moduleLoaded && old(permission) == Granted ==> status == Granted && permission == Granted
      ensures moduleLoaded && old(permission) != Granted ==> status == userAnswer && permission == userAnswer
      ensures status == GetPermissionStatus()
    {
      if !moduleLoaded {
        return Undetermined;
      }
      var existingStatus := permission;
      if existingStatus == Granted {
        return Granted;
      }
      permission := userAnswer;
      status := permission;
    }

    /** `cancelAllNotifications`: nothing stays pending and the record is cleared. */
    method CancelAllNotifications()
      modifies this`pending, this`ids
      ensures moduleLoaded ==> pending == [] && ids == ScheduledIds(None, None)
      ensures !moduleLoaded ==> pending == old(pending) && ids == old(ids)
      ensures old(Valid()) ==> Valid()
    {
      if !moduleLoaded {
        return;
      }
      pending := [];
      ids := ScheduledIds(None, None);
    }

    /** `scheduleNotification`: an instant not after `now` is skipped; otherwise a fresh identifier. */
    method ScheduleNotification(key: NotificationKey, triggerDate: int, now: int) returns (id: Option<nat>)
      modifies this`pending, this`issued
      ensures !moduleLoaded || triggerDate <= now ==>
        id == None && pending == old(pending) && issued == old(issued)
      ensures moduleLoaded && triggerDate > now ==>
        && id == Some(old(issued)) && issued == old(issued) + 1
        && pending == old(pending) + [PendingNotification(old(issued), key, Title(key), Body(key), triggerDate)]
    {
      if !moduleLoaded {
        return None;
      }
      if triggerDate <= now {
        return None;
      }
      pending := pending + [PendingNotification(issued, key, Title(key), Body(key), triggerDate)];
      id := Some(issued);
      issued := issued + 1;
    }

    /**
     * `scheduleNotifications`: cancel everything, then schedule the enabled
     * notifications of the fast that started at `startTime`.
     */
    method ScheduleNotifications(startTime: int, plan: FastingPlan, settings: NotificationSettings, now: int)
      modifies this`pending, this`issued, this`ids
      ensures !moduleLoaded ==> pending == old(pending) && issued == old(issued) && ids == old(ids)
      ensures moduleLoaded ==> pending == ScheduledFrom(old(issued), startTime, plan, settings, now)
      ensures moduleLoaded ==> ids == IdsFrom(old(issued), startTime, plan, settings, now)
      ensures moduleLoaded ==> issued == old(issued) + |pending|
      ensures moduleLoaded || old(Valid()) ==> Valid()
    {
      if !moduleLoaded {
        return;
      }
      ghost var first := issued;
      CancelAllNotifications();
      var fastingMs := plan.fastingHours * 60 * 60 * 1000;
      var eatingMs := plan.eatingHours * 60 * 60 * 1000;
      ghost var fe, er := FastingEndAt(startTime, plan), EatingReminderAt(startTime, plan);
      assert startTime + fastingMs == fe && startTime + fastingMs + eatingMs - 30 * 60 * 1000 == er;
      if settings.fastingEnd {
        var endTime := startTime + fastingMs;
        var id := ScheduleNotification(FastingEndKey, endTime, now);
        ids := ids.(fastingEnd := id);
      }
      if settings.eatingReminder {
        var eatingEndTime := startTime + fastingMs + eatingMs - 30 * 60 * 1000;
        var id := ScheduleNotification(EatingReminderKey, eatingEndTime, now);
        ids := ids.(eatingReminder := id);
      }
      ScheduledIdsConsistent(first, startTime, plan, settings, now);
    }

    /** `getScheduledIds`: a copy of the identifier record; each identifier names a pending notification of its key. */
    method GetScheduledIds() returns (r: ScheduledIds)
      requires Valid()
      ensures r == ids
      ensures Names(pending, r.fastingEnd, FastingEndKey) && Names(pending, r.eatingReminder, EatingReminderKey)
    {
      r := ids;
    }
  }
}
