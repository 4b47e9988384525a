/**
  The save button of the settings screen: the three entered durations are
  checked in order and, when none of them is 0, saved together with the
  selected notification sound.
 */
module SettingsScreen {
  import opened Types
  import opened Preferences

  /** The three duration inputs, in the order the save button checks them. */
  datatype DurationField = PomodoroDurationField | BreakTimeField | LongBreakTimeField

  /** The error text put on the rejected input. */
  const InvalidDurationMessage: string := "Enter valid duration"

  /** What pressing save does: mark one input as invalid, or save these settings. */
  datatype SaveOutcome = FieldError(field: DurationField) | Save(settings: Settings)

  /** The position of an input in the checking order. */
  function CheckOrder(f: DurationField): nat {
    match f
    case PomodoroDurationField => 0
    case BreakTimeField => 1
    case LongBreakTimeField => 2
  }

  /** The value entered in an input. */
  function EnteredValue(f: DurationField, pomodoro: i32, brk: i32, longBrk: i32): i32 {
    match f
    case PomodoroDurationField => pomodoro
    case BreakTimeField => brk
    case LongBreakTimeField => longBrk
  }

  /** The save button's `when` chain. Only a duration of exactly 0 is rejected (a negative one
      passes); the error goes to the first zero input in checking order and nothing is saved; otherwise
      the settings saved carry exactly the entered durations and the selected sound's URI. */
  function ValidateDurations(pomodoro: i32, brk: i32, longBrk: i32, ringtoneUri: string): (r: SaveOutcome)
    ensures r.Save? <==> pomodoro != 0 && brk != 0 && longBrk != 0
    ensures r.Save? ==> r.settings == Settings(pomodoro, brk, longBrk, ringtoneUri)
    ensures r.FieldError? ==>
              EnteredValue(r.field, pomodoro, brk, longBrk) == 0 &&
              forall f :: CheckOrder(f) < CheckOrder(r.field) ==> EnteredValue(f, pomodoro, brk, longBrk) != 0
  {
    if pomodoro == 0 then FieldError(PomodoroDurationField)
    else if brk == 0 then FieldError(BreakTimeField)
    else if longBrk == 0 then FieldError(LongBreakTimeField)
    else Save(Settings(pomodoro, brk, longBrk, ringtoneUri))
  }

  /** A zero in an earlier input hides a zero in a later one, and negative durations are accepted. */
  lemma ValidationExamples()
    ensures ValidateDurations(0, 0, 0, "") == FieldError(PomodoroDurationField)
    ensures ValidateDurations(25, 0, 0, "") == FieldError(BreakTimeField)
    ensures ValidateDurations(-25, -5, -15, "") == Save(Settings(-25, -5, -15, ""))
  {
  }

  /** The click handler: validates, and on success writes the settings to the store; on an error
      the store is untouched. */
  method OnSaveClicked(store: DataStoreManager, pomodoro: i32, brk: i32, longBrk: i32, ringtoneUri: string)
    returns (r: SaveOutcome)
    modifies store`prefs
    ensures r == ValidateDurations(pomodoro, brk, longBrk, ringtoneUri)
    ensures r.Save? ==> store.prefs == WithSettings(old(store.prefs), r.settings)
    ensures r.Save? ==> GetSettings(store.prefs) == Settings(pomodoro, brk, longBrk, ringtoneUri)
    ensures r.FieldError? ==> store.prefs == old(store.prefs)
  {
    r := ValidateDurations(pomodoro, brk, longBrk, ringtoneUri);
    if r.Save? {
      store.SaveSettings(r.settings);
      SettingsRoundTrip(old(store.prefs), r.settings);
    }
  }
}
