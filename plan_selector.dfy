// The custom-plan inputs of the plan selector: the text the two hour fields
// start with, and how the typed text becomes the custom fasting and eating
// hours handed to the settings store.

module PlanSelector {
  import opened Wrappers
  import opened Strings
  import Settings

  const DefaultFastingHours: int := 16
  const DefaultEatingHours: int := 8

  /** Each hour field accepts at most this many characters. */
  const MaxInputLength: nat := 2

  // ---------------------------------------------------------------------
  // the initial text of the fields
  // ---------------------------------------------------------------------

  /** `stored?.toString() ?? fallback`: the text a field starts with. */
  function InitialCustomText(stored: Option<int>, fallback: string): (text: string)
    ensures stored.None? ==> text == fallback
    ensures stored.Some? ==> ParseInt(text) == stored
  {
    match stored
    case None => fallback
    case Some(v) =>
      ParseIntOfIntToString(v);
      IntToString(v)
  }

  /** The fasting and eating fields' initial text from the stored custom hours. */
  function InitialTexts(customFastingHours: Option<int>, customEatingHours: Option<int>): (texts: (string, string))
    ensures customFastingHours.None? ==> texts.0 == "16"
    ensures customEatingHours.None? ==> texts.1 == "8"
    ensures customFastingHours.Some? ==> ParseInt(texts.0) == customFastingHours
    ensures customEatingHours.Some? ==> ParseInt(texts.1) == customEatingHours
  {
    (InitialCustomText(customFastingHours, "16"), InitialCustomText(customEatingHours, "8"))
  }

  /** The default texts read as the default hours. */
  lemma DefaultTextsParse()
    ensures ParseInt("16") == Some(DefaultFastingHours)
    ensures ParseInt("8") == Some(DefaultEatingHours)
  {
    assert NatToString(16) == "16" by {
      assert NatToString(16) == NatToString(1) + [DigitChar(6)];
    }
    assert NatToString(8) == "8";
    ParseIntOfIntToString(16);
    ParseIntOfIntToString(8);
  }

  // ---------------------------------------------------------------------
  // handleApplyCustom as written: `parseInt(text, 10) || fallback`
  // ---------------------------------------------------------------------

  /** JavaScript's `n || fallback` on a parsed number: NaN and 0 are falsy. */
  function OrFallback(parsed: Option<int>, fallback: int): (r: int)
    ensures parsed == None || parsed == Some(0) ==> r == fallback
    ensures parsed.Some? && parsed.value != 0 ==> r == parsed.value
  {
    if parsed.Some? && parsed.value != 0 then parsed.value else fallback
  }

  /** The hours `handleApplyCustom` hands on, computed as the code does. */
  function ApplyCustomAsWritten(fastingText: string, eatingText: string): (hours: (int, int))
    ensures hours.0 != 0 && hours.1 != 0
    ensures |fastingText| <= MaxInputLength ==> -9 <= hours.0 <= 99
    ensures |eatingText| <= MaxInputLength ==> -9 <= hours.1 <= 99
  {
    (FieldAsWritten(fastingText, DefaultFastingHours), FieldAsWritten(eatingText, DefaultEatingHours))
  }

  /** One field as the code reads it: `parseInt(text, 10) || fallback`. */
  function FieldAsWritten(text: string, fallback: int): (h: int)
    requires 0 < fallback <= 99
    ensures h != 0
    ensures |text| <= MaxInputLength ==> -9 <= h <= 99
  {
    var parsed := ParseInt(text);
    ParsedBound(text);
    OrFallback(parsed, fallback)
  }

  /** What a field of at most two characters can read as. */
  lemma ParsedBound(text: string)
    ensures |text| <= MaxInputLength && ParseInt(text).Some? ==> -9 <= ParseInt(text).value <= 99
  {
    if |text| <= MaxInputLength {
      ParseIntOfShort(text);
    }
  }

  /** A minus sign gets through: "-5" becomes -5 fasting hours. */
  lemma AsWrittenPassesNegativeHours()
    ensures ApplyCustomAsWritten("-5", "8") == (-5, 8)
  {
    assert IntToString(-5) == "-5" by {
      assert NatToString(5) == [DigitChar(5)];
    }
    assert IntToString(8) == "8";
    AsWrittenKeepsNonZero(-5, 8);
  }

  /** The code hands on any non-zero number typed in, negative ones included. */
  lemma AsWrittenKeepsNonZero(fasting: int, eating: int)
    requires fasting != 0 && eating != 0
    ensures ApplyCustomAsWritten(IntToString(fasting), IntToString(eating)) == (fasting, eating)
  {
    ParseIntOfIntToString(fasting);
    ParseIntOfIntToString(eating);
  }

  // ---------------------------------------------------------------------
  // handleApplyCustom, falling back for every non-positive value
  // ---------------------------------------------------------------------

  /** The parsed number when it is a positive hour count, otherwise the fallback. */
  function PositiveOr(parsed: Option<int>, fallback: int): (r: int)
    requires fallback > 0
    ensures r > 0
    ensures parsed.Some? && parsed.value > 0 ==> r == parsed.value
    ensures parsed.None? || parsed.value <= 0 ==> r == fallback
  {
    if parsed.Some? && parsed.value > 0 then parsed.value else fallback
  }

  /**
   * The fasting and eating hours to store: each field's number when it is
   * positive, otherwise 16 and 8 hours.
   */
  function ApplyCustom(fastingText: string, eatingText: string): (hours: (int, int))
    ensures hours.0 > 0 && hours.1 > 0
    ensures |fastingText| <= MaxInputLength ==> hours.0 <= 99
    ensures |eatingText| <= MaxInputLength ==> hours.1 <= 99
  {
    (FieldPositive(fastingText, DefaultFastingHours), FieldPositive(eatingText, DefaultEatingHours))
  }

  /** One field under the corrected rule: its number when positive, otherwise the fallback. */
  function FieldPositive(text: string, fallback: int): (h: int)
    requires 0 < fallback <= 99
    ensures h > 0
    ensures |text| <= MaxInputLength ==> h <= 99
  {
    var parsed := ParseInt(text);
    ParsedBound(text);
    PositiveOr(parsed, fallback)
  }

  /** Where the two rules agree: every text except one that reads as a negative number. */
  lemma {:induction false} ApplyCustomAgreesOnNonNegative(fastingText: string, eatingText: string)
    requires ParseInt(fastingText).None? || ParseInt(fastingText).value >= 0
    requires ParseInt(eatingText).None? || ParseInt(eatingText).value >= 0
    ensures ApplyCustom(fastingText, eatingText) == ApplyCustomAsWritten(fastingText, eatingText)
  {
    var f, e := ParseInt(fastingText), ParseInt(eatingText);
    assert ApplyCustom(fastingText, eatingText) == (PositiveOr(f, DefaultFastingHours), PositiveOr(e, DefaultEatingHours));
    assert ApplyCustomAsWritten(fastingText, eatingText)
      == (OrFallback(f, DefaultFastingHours), OrFallback(e, DefaultEatingHours));
    assert PositiveOr(f, DefaultFastingHours) == OrFallback(f, DefaultFastingHours);
    assert PositiveOr(e, DefaultEatingHours) == OrFallback(e, DefaultEatingHours);
  }

  /**
   * A field that starts with digits is read as the number of that leading run
   * of digits, whatever follows it.
   */
  lemma LeadingDigitsAreRead(digits: string, rest: string, eatingText: string)
    requires digits != [] && AllDigits(digits) && DigitsValue(digits) > 0
    requires rest == [] || !IsDigit(rest[0])
    ensures ApplyCustom(digits + rest, eatingText).0 == DigitsValue(digits)
    ensures ApplyCustom(eatingText, digits + rest).1 == DigitsValue(digits)
  {
    ParseIntOfDigits(digits, rest);
  }

  /** An empty field, a field without a number, or "0" falls back to 16 and 8 hours. */
  lemma EmptyOrZeroFallsBack(fastingText: string, eatingText: string)
    requires ParseInt(fastingText) == None || ParseInt(fastingText) == Some(0)
    requires ParseInt(eatingText) == None || ParseInt(eatingText) == Some(0)
    ensures ApplyCustom(fastingText, eatingText) == (DefaultFastingHours, DefaultEatingHours)
    ensures ApplyCustomAsWritten(fastingText, eatingText) == (DefaultFastingHours, DefaultEatingHours)
  {
  }

  /**
   * Applying the fields as they were first filled in gives back the stored
   * custom hours when they are positive, and 16 and 8 hours when none are
   * stored.
   */
  lemma InitialTextsApplyBack(customFastingHours: Option<int>, customEatingHours: Option<int>)
    ensures var texts := InitialTexts(customFastingHours, customEatingHours);
      var hours := ApplyCustom(texts.0, texts.1);
      && (customFastingHours.None? ==> hours.0 == DefaultFastingHours)
      && (customEatingHours.None? ==> hours.1 == DefaultEatingHours)
      && (customFastingHours.Some? && customFastingHours.value > 0 ==> hours.0 == customFastingHours.value)
      && (customEatingHours.Some? && customEatingHours.value > 0 ==> hours.1 == customEatingHours.value)
  {
    DefaultTextsParse();
  }

  /**
   * `handleApplyCustom`: reads the two fields as the code does and selects
   * the custom plan with the hours read. They are never 0, but a field that
   * reads as a negative number is stored as it reads.
   */
  method HandleApplyCustom(store: Settings.SettingsStore, fastingText: string, eatingText: string)
    modifies store`selectedPlanId, store`customFastingHours, store`customEatingHours
    ensures store.selectedPlanId == Settings.CustomPlanId
    ensures store.customFastingHours == Some(ApplyCustomAsWritten(fastingText, eatingText).0)
    ensures store.customEatingHours == Some(ApplyCustomAsWritten(fastingText, eatingText).1)
    ensures store.customFastingHours.value != 0 && store.customEatingHours.value != 0
    ensures |fastingText| <= MaxInputLength ==> -9 <= store.customFastingHours.value <= 99
    ensures |eatingText| <= MaxInputLength ==> -9 <= store.customEatingHours.value <= 99
  {
    var hours := ApplyCustomAsWritten(fastingText, eatingText);
    store.SetCustomHours(hours.0, hours.1);
  }

  /**
   * The handler with every non-positive reading falling back to 16 and 8
   * hours: the custom hours stored are always positive.
   */
  method HandleApplyCustomCorrected(store: Settings.SettingsStore, fastingText: string, eatingText: string)
    modifies store`selectedPlanId, store`customFastingHours, store`customEatingHours
    ensures store.selectedPlanId == Settings.CustomPlanId
    ensures store.customFastingHours == Some(ApplyCustom(fastingText, eatingText).0)
    ensures store.customEatingHours == Some(ApplyCustom(fastingText, eatingText).1)
    ensures store.customFastingHours.value > 0 && store.customEatingHours.value > 0
  {
    var hours := ApplyCustom(fastingText, eatingText);
    store.SetCustomHours(hours.0, hours.1);
  }
}
