/**
 * The settings store: the chosen plan, the custom hours, the usual start of
 * the eating window and the notification toggles. Each action overwrites the
 * fields it names and nothing else.
 */
module Settings {
  import opened Wrappers
  import opened Types
  import Plans

  /** The toggles the store keeps: two more than `NotificationSettings` declares. */
  datatype StoredNotifications = StoredNotifications(
    fastingStart: bool,
    fastingEnd: bool,
    eatingReminder: bool,
    halfwayCheer: bool)

  const InitialNotifications := StoredNotifications(true, true, true, false)
  const CustomPlanId := "custom"
  const InitialEatingStartTime := "11:00"

  function Flag(n: StoredNotifications, key: NotificationSettingKey): (on: bool)
    ensures key == FastingEndSetting ==> on == n.fastingEnd
    ensures key == EatingReminderSetting ==> on == n.eatingReminder
  {
    match key
    case FastingEndSetting => n.fastingEnd
    case EatingReminderSetting => n.eatingReminder
  }

  /** The two toggles the notification hook reads. */
  function AsSettings(n: StoredNotifications): (s: NotificationSettings)
    ensures s.fastingEnd == Flag(n, FastingEndSetting) && s.eatingReminder == Flag(n, EatingReminderSetting)
  {
    NotificationSettings(n.fastingEnd, n.eatingReminder)
  }

  /** `{ ...notifications, [key]: value }`. */
  function WithFlag(n: StoredNotifications, key: NotificationSettingKey, value: bool): (r: StoredNotifications)
    ensures Flag(r, key) == value
    ensures forall k :: k != key ==> Flag(r, k) == Flag(n, k)
    ensures r.fastingStart == n.fastingStart && r.halfwayCheer == n.halfwayCheer
  {
    match key
    case FastingEndSetting => n.(fastingEnd := value)
    case EatingReminderSetting => n.(eatingReminder := value)
  }

  /** Writing a flag's own value changes nothing; of two writes to one flag the last wins. */
  lemma WithFlagLaws(n: StoredNotifications, key: NotificationSettingKey, v: bool, w: bool)
    ensures WithFlag(n, key, Flag(n, key)) == n
    ensures WithFlag(WithFlag(n, key, v), key, w) == WithFlag(n, key, w)
  {
  }

  /** Writes to different flags commute. */
  lemma WithFlagCommutes(n: StoredNotifications, a: NotificationSettingKey, b: NotificationSettingKey, v: bool, w: bool)
    requires a != b
    ensures WithFlag(WithFlag(n, a, v), b, w) == WithFlag(WithFlag(n, b, w), a, v)
  {
  }

  class SettingsStore {
    var selectedPlanId: string
    var customFastingHours: Option<int>
    var customEatingHours: Option<int>
    var eatingStartTime: string
    var notifications: StoredNotifications

    /** The fields hold `initialState`. */
    predicate IsInitial()
      reads this
    {
      && selectedPlanId == Plans.DefaultPlanId
      && customFastingHours == None && customEatingHours == None
      && eatingStartTime == InitialEatingStartTime
      && notifications == InitialNotifications
    }

    constructor ()
      ensures IsInitial()
    {
      selectedPlanId := Plans.DefaultPlanId;
      customFastingHours, customEatingHours := None, None;
      eatingStartTime := InitialEatingStartTime;
      notifications := InitialNotifications;
    }

    /** `setSelectedPlan`: any id is stored, a preset or not. */
    method SetSelectedPlan(planId: string)
      modifies this`selectedPlanId
      ensures selectedPlanId == planId
    {
      selectedPlanId := planId;
    }

    /** `setCustomHours`: switch to the custom plan and keep both numbers as given. */
    method SetCustomHours(fasting: int, eating: int)
      modifies this`selectedPlanId, this`customFastingHours, this`customEatingHours
      ensures selectedPlanId == CustomPlanId && Plans.GetPlanById(selectedPlanId) == None
      ensures customFastingHours == Some(fasting) && customEatingHours == Some(eating)
    {
      selectedPlanId := CustomPlanId;
      customFastingHours := Some(fasting);
      customEatingHours := Some(eating);
      Plans.CustomIsNotAPreset();
    }

    method SetEatingStartTime(time: string)
      modifies this`eatingStartTime
      ensures eatingStartTime == time
    {
      eatingStartTime := time;
    }

    /** `setNotification`: one toggle takes the value, the others keep theirs. */
    method SetNotification(key: NotificationSettingKey, value: bool)
      modifies this`notifications
      ensures notifications == WithFlag(old(notifications), key, value)
      ensures Flag(notifications, key) == value
    {
      notifications := WithFlag(notifications, key, value);
    }

    /** `resetSettings`: back to `initialState`. */
    method ResetSettings()
      modifies this
      ensures IsInitial()
    {
      selectedPlanId := Plans.DefaultPlanId;
      customFastingHours, customEatingHours := None, None;
      eatingStartTime := InitialEatingStartTime;
      notifications := InitialNotifications;
    }
  }

  /** The initial toggles ask for both notifications the hook can schedule. */
  lemma InitialSettingsScheduleBoth()
    ensures AsSettings(InitialNotifications) == NotificationSettings(true, true)
    ensures !InitialNotifications.halfwayCheer && InitialNotifications.fastingStart
  {
  }
}
