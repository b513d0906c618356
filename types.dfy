/** The value shapes shared by the stores, hooks and components. */
module Types {
  import opened Wrappers

  /** Milliseconds per unit; every instant in the model is an integer count of milliseconds. */
  const MsPerSecond: int := 1000
  const MsPerMinute: int := 60 * MsPerSecond
  const MsPerHour: int := 60 * MsPerMinute
  const MsPerDay: int := 24 * MsPerHour

  /** The phase of the current cycle. */
  datatype TimerStatus = Idle | Fasting | Eating

  /** A fasting/eating split of the day, from the catalogue. */
  datatype FastingPlan = FastingPlan(
    id: string,
    name: string,
    planLabel: string,
    fastingHours: int,
    eatingHours: int,
    description: string)

  /**
   * One finished cycle. `startTime` and `endTime` are the instants the source
   * stores as ISO-8601 strings; the durations are whole minutes.
   */
  datatype FastingRecord = FastingRecord(
    id: string,
    planId: string,
    startTime: int,
    endTime: Option<int>,
    targetDuration: int,
    actualDuration: int,
    completed: bool)

  /** The two notification toggles the notification type declares. */
  datatype NotificationSettings = NotificationSettings(fastingEnd: bool, eatingReminder: bool)

  /** The keys of `NotificationSettings`. */
  datatype NotificationSettingKey = FastingEndSetting | EatingReminderSetting

  /** Whole-history statistics. */
  datatype FastingStats = FastingStats(
    totalFasts: int,
    completedFasts: int,
    currentStreak: int,
    longestStreak: int,
    averageDuration: int,
    successRate: int)

  /** Quotient and remainder are the only pair that rebuilds `a` with a remainder below `b`. */
  lemma DivModUnique(a: int, b: int, q: int, r: int)
    requires b > 0 && a == q * b + r && 0 <= r < b
    ensures a / b == q && a % b == r
  {
    var q', r' := a / b, a % b;
    if q' < q {
      assert (q - q') * b == q * b - q' * b;
      MultipleAtLeast(q - q', b);
      assert false;
    } else if q' > q {
      assert (q' - q) * b == q' * b - q * b;
      MultipleAtLeast(q' - q, b);
      assert false;
    }
  }

  lemma {:induction false} MultipleAtLeast(k: int, b: int)
    requires k >= 1 && b > 0
    ensures k * b >= b
    decreases k
  {
    if k > 1 {
      MultipleAtLeast(k - 1, b);
      assert k * b == (k - 1) * b + b;
    }
  }
}
