# Pomodoro cycle engine

A Dafny model of the timer core of an Android Pomodoro app.

The core is `DataStoreManager`. It keeps its state in a key/value preference store: the three phase durations, the notification sound, the cycle position, the remaining time, the running flag and the focused task. It also keeps a live countdown counter and a ticking job that lowers the counter once a second.

The phases follow a fixed cycle table: focus (spelled `PODOMORO` in the app), short break, four times over, then a long break. "Skip to phase X" scans this table forward from the position after the current one. If X is not found there, it scans the whole table from 0.

Besides the engine, the model covers three small pieces of screen logic:

- the `mm:ss` rendering of the countdown on the home screen;
- the focused task's completion mark and progress text;
- the duration check of the settings screen's save button.

Files, one module each:

- `types.dfy` (`Types`): Kotlin nullables (`Option`, with `GetOr` for `?:`), `Int` and `Long` as bounded subset types, two's-complement wrap-around, and Kotlin's truncating `/` and `%`.
- `text.dfy` (`Text`): decimal printing of integers. This covers `Int.toString()` and the `%02d` conversion, plus a decimal reader so that printed text can be stated as a round trip.
- `cycle.dfy` (`Cycle`): the phases, the default table, and the two-scan search behind the phase switch. It also defines an independent "nearest occurrence after the current position" characterisation.
- `preferences.dfy` (`Preferences`): the store as a record of eight optional fields, the read functions (`GetSettings`, `GetFocusedTaskId`, `GetTimerInstance`), and the `DataStoreManager` class with its start, tick, stop, save and switch methods. A client method, `PauseAndResume`, walks through a skip, start, tick, pause and resume.
- `home.dfy` (`Home`): `FormatTime` and `FocusedTaskProgress`.
- `settings_screen.dfy` (`SettingsScreen`): `ValidateDurations` and the click handler `OnSaveClicked`.

Modelling choices:

- **Store.** Each preference key is an `Option` field of `Prefs`; `None` means the key was never written. Writes are datatype updates, so every method's contract names exactly the keys it changes.
- **Cycle table.** The app declares the table as a global `var`. Here it is a `const` of the manager, given at construction; the default argument is the nine-entry `DefaultCycle`. Because other tables can be passed in, the "phase not in the table" case is reachable.
- **Validity.** `Valid()` (via `StoreFits`) requires that the table can be indexed by an `Int` and that the stored position is one of its entries. If either fails, the app's array access throws, or its `% size` divides by zero when the table is empty. Every method keeps `Valid()`.
- **Ticking job.** `ticking` stands for a live `timerJob`. `StartTheClock` always launches the job (PreferenceManager.kt:93), but the launched job stays alive only while the counter is positive: its `while` (PreferenceManager.kt:95) tests the counter before the first delay, so with a counter of 0 or below the job ends at once. The model therefore sets `ticking` to "counter positive". One `Tick()` is one second of the job. The job ends when the counter is no longer positive. `RunTickingJob` runs the job's loop until it ends on its own.
- **Counter reset on read.** `getTimerInstance` calls the duration lookup, and that lookup also writes the live counter. `ObserveTimerInstance` keeps this effect: one emission of the snapshot resets the counter to the phase's full time.
- **Counter not persisted.** The counter is never written back to the store. A stop followed by a start reloads the remaining time that was stored when the phase was entered. `PauseAndResume` shows this.
- **Durations during the switch.** In `switchToNextDesiredPhase`, the loop first writes the new index and then calls `getDurationFromCycleIndex` on the edited store. Durations are not touched by the switch, so reading them before or after the index write gives the same value.

Behaviours of the code that a reader might not expect, all kept by the model:

- A duration key that was never saved gives a phase length of 0 seconds. `GetSettings` on the same store returns 25 minutes (`FreshStoreTimer`).
- `minutes * 60` is 32-bit `Int` arithmetic and wraps (`PhaseDuration`).
- Only a duration of exactly 0 is rejected on save. Negative durations are saved. The countdown then starts negative and stays there: `Tick` only lowers a positive counter, so "never below zero" holds only for a counter that starts at 0 or above (`CountdownClosedForm`).
- The switch falls back to the current position itself when that position holds the only occurrence of the phase (`NearestOccurrenceAfter`, `DefaultCycleWrapExample`). It is not strictly "after".

## Model

| member | source | states |
|---|---|---|
| `Cycle.FirstIndexFrom` | app/src/main/java/com/ahastack/poromodo/preferences/PreferenceManager.kt:185-192 | a scan from position `from` returns the lowest position at or after `from` holding the phase, or reports that no position in `[from, size)` holds it |
| `Cycle.NextDesiredIndexFound` | app/src/main/java/com/ahastack/poromodo/preferences/PreferenceManager.kt:180-203 | the switch finds a position exactly when the phase occurs in the table, and that position is in range and holds the phase |
| `Cycle.ForwardScanPrecedence` | app/src/main/java/com/ahastack/poromodo/preferences/PreferenceManager.kt:185-192 | if the phase occurs in `[(curr+1) % size, size)`, the lowest such position is chosen |
| `Cycle.WrapAroundScan` | app/src/main/java/com/ahastack/poromodo/preferences/PreferenceManager.kt:194-202 | if the forward range has no match, the lowest position of the whole table holding the phase is chosen (it is at or before `curr`); with no match anywhere, nothing is chosen |
| `Cycle.ScanStartValue` | app/src/main/java/com/ahastack/poromodo/preferences/PreferenceManager.kt:185 | the forward scan starts at `curr + 1`, or at 0 when `curr` is the last position |
| `Cycle.NearestOccurrenceAfter` | app/src/main/java/com/ahastack/poromodo/preferences/PreferenceManager.kt:182-202 | the chosen position is the occurrence of the phase reached in the fewest forward steps from `curr`, wrapping round, with `curr` itself counted last; it is strictly nearer than every other occurrence |
| `Cycle.DefaultCycleForwardExample` | app/src/main/java/com/ahastack/poromodo/preferences/PreferenceManager.kt:33-44 | on the default table, from position 0 a short break is found at 1, not 3 |
| `Cycle.DefaultCycleWrapExample` | app/src/main/java/com/ahastack/poromodo/preferences/PreferenceManager.kt:184-202 | on the default table, focus from 7 wraps to 0; from 8 the forward scan already starts at 0; the long break from 8 comes back to 8 |
| `Cycle.FiveEntryCycleExample` | app/src/main/java/com/ahastack/poromodo/preferences/PreferenceManager.kt:185-202 | on a five-entry table, focus from the long break gives 0, not 2; a break from 0 gives 1, not 3; on the two-entry table `[Podomoro, Break]`, asking for the long break, which it lacks, gives no position |
| `Types.Wrap32` | app/src/main/java/com/ahastack/poromodo/preferences/PreferenceManager.kt:121 | the 32-bit result of `d * 60` equals the mathematical product whenever the product fits, and is congruent to it modulo 2^32 otherwise |
| `Preferences.PhaseDuration` | app/src/main/java/com/ahastack/poromodo/preferences/PreferenceManager.kt:113-121 | a phase's length is its stored minutes times 60 (wrapped to `Int`), and 0 when its duration key was never saved |
| `Preferences.DurationExample` | app/src/main/java/com/ahastack/poromodo/preferences/PreferenceManager.kt:117-121 | 25 saved minutes of focus last 1500 seconds |
| `Preferences.SettingsRoundTrip` | app/src/main/java/com/ahastack/poromodo/preferences/PreferenceManager.kt:128-148 | reading the settings after saving `s` gives exactly `s` |
| `Preferences.FreshStoreDefaults` | app/src/main/java/com/ahastack/poromodo/preferences/PreferenceManager.kt:128-139 | an empty store reads as 25 / 5 / 15 minutes with no sound, and as focused task -1 |
| `Preferences.FocusedTaskRoundTrip` | app/src/main/java/com/ahastack/poromodo/preferences/PreferenceManager.kt:167-178 | the focused-task id reads back as the id last saved |
| `Preferences.FreshStoreTimer` | app/src/main/java/com/ahastack/poromodo/preferences/PreferenceManager.kt:153-165 | on an empty store the snapshot is position 0 with 0 seconds total and left and not running, although the settings read 25 minutes |
| `Preferences.TimerAfterSwitch` | app/src/main/java/com/ahastack/poromodo/preferences/PreferenceManager.kt:180-204 | after a switch to a phase in the table, the snapshot is at the chosen position, shows that phase, and has time left equal to its full duration; running flag, settings and focused task are unchanged; a phase missing from the table leaves the store unchanged |
| `Preferences.TimerAfterSaveSettings` | app/src/main/java/com/ahastack/poromodo/preferences/PreferenceManager.kt:153-165 | saving settings leaves the snapshot's position, phase, running flag and any stored time left unchanged, and recomputes its total from the new minutes |
| `Preferences.TickOnce` | app/src/main/java/com/ahastack/poromodo/preferences/PreferenceManager.kt:100-101 | one tick moves the counter down by at most one, moves it exactly when it is positive, and never takes a counter at 0 or above below 0 |
| `Preferences.CountdownClosedForm` | app/src/main/java/com/ahastack/poromodo/preferences/PreferenceManager.kt:93-103 | after `n` ticks a counter starting at `c >= 0` is `c - n` while that is not negative and 0 afterwards, so it never goes below zero; a negative counter stays as it is |
| `Preferences.DataStoreManager.constructor` | app/src/main/java/com/ahastack/poromodo/preferences/PreferenceManager.kt:62-78 | a new manager has the given cycle table (the default nine entries unless another is given), an empty store, a counter of 0 and no ticking job |
| `Preferences.DataStoreManager.CancelTickingJob` | app/src/main/java/com/ahastack/poromodo/preferences/PreferenceManager.kt:80-83 | afterwards no ticking job is alive |
| `Preferences.DataStoreManager.StartTheClock` | app/src/main/java/com/ahastack/poromodo/preferences/PreferenceManager.kt:86-104 | the earlier job is cancelled first (a single flag, see "Left out"); only `is_running` is written (true); the counter is the stored remaining time (0 if none); a job is alive exactly when that counter is positive |
| `Preferences.DataStoreManager.Tick` | app/src/main/java/com/ahastack/poromodo/preferences/PreferenceManager.kt:93-103 | with a live job, one second ticks the counter once and the job stays alive only while the counter is positive; without a job nothing changes; the store is untouched |
| `Preferences.DataStoreManager.RunTickingJob` | app/src/main/java/com/ahastack/poromodo/preferences/PreferenceManager.kt:93-103 | a live job left alone runs for as many seconds as the counter held (one if it was not positive) and leaves the counter at 0 (or at its non-positive value); no job means no seconds |
| `Preferences.DataStoreManager.StopTheClock` | app/src/main/java/com/ahastack/poromodo/preferences/PreferenceManager.kt:106-111 | the job ends and only `is_running` is written (false); the stored remaining time and the counter are unchanged, so stopping twice is the same as stopping once |
| `Preferences.DataStoreManager.DurationFromCycleIndex` | app/src/main/java/com/ahastack/poromodo/preferences/PreferenceManager.kt:113-124 | returns the duration of the phase at `idx` (position 0 when `idx` is null) and puts the same value into the counter |
| `Preferences.DataStoreManager.ObserveTimerInstance` | app/src/main/java/com/ahastack/poromodo/preferences/PreferenceManager.kt:153-165 | returns the snapshot of the current store and, as a side effect, overwrites the counter with the snapshot's total time |
| `Preferences.DataStoreManager.SaveSettings` | app/src/main/java/com/ahastack/poromodo/preferences/PreferenceManager.kt:141-148 | writes exactly the four settings keys with the given values |
| `Preferences.DataStoreManager.SaveFocusTaskId` | app/src/main/java/com/ahastack/poromodo/preferences/PreferenceManager.kt:174-178 | writes exactly the focused-task key |
| `Preferences.DataStoreManager.SwitchToNextDesiredPhase` | app/src/main/java/com/ahastack/poromodo/preferences/PreferenceManager.kt:180-204 | the two loops store the position chosen by the forward-then-wrap scan and that phase's full duration as the remaining time and the counter; when the phase is not in the table, no key and not the counter change |
| `Types.TDiv` | app/src/main/java/com/ahastack/poromodo/ui/home/HomeFragment.kt:38 | Kotlin's `/` by a positive divisor truncates toward zero: `q * b` is the multiple of `b` nearest to `a` on the side of 0, so it is within one divisor of `a` |
| `Types.TRem` | app/src/main/java/com/ahastack/poromodo/ui/home/HomeFragment.kt:38-39 | Kotlin's quotient and remainder by 60 recombine to the count; for a non-negative count the remainder is in 0..59 |
| `Text.NatToStringRoundTrip` | app/src/main/java/com/ahastack/poromodo/ui/home/HomeFragment.kt:40 | the printed digits of `n` read back as `n`; one digit below 10, at least two from 10, at most two below 100; a positive number has no leading zero |
| `Text.Format02dDigits` | app/src/main/java/com/ahastack/poromodo/ui/home/HomeFragment.kt:40 | `%02d` of a non-negative number is all digits, at least two of them, exactly two below 100, and reads back as the number; from 10 on there is no leading zero |
| `Text.IntToStringRoundTrip` | app/src/main/java/com/ahastack/poromodo/ui/home/HomeFragment.kt:191-192 | the printed form of an `Int` reads back as that `Int` and contains no `/` |
| `Home.FormatTimeFields` | app/src/main/java/com/ahastack/poromodo/ui/home/HomeFragment.kt:37-41 | for a non-negative count the text is a minutes field of at least two digits, a colon and a seconds field of exactly two digits below 60; minutes × 60 + seconds is the count; below 6000 seconds the text has length 5; from 600 seconds on the text does not start with `0` |
| `Home.FormatTimeExamples` | app/src/main/java/com/ahastack/poromodo/ui/home/HomeFragment.kt:37-41 | 1500 prints as "25:00", 0 as "00:00", 599 as "09:59" and 6000 as "100:00" |
| `Home.FormatTimeNegative` | app/src/main/java/com/ahastack/poromodo/ui/home/HomeFragment.kt:38-40 | a negative count, -61, prints as "-1:-1" under Kotlin's truncating division |
| `Home.FocusedTaskProgress` | app/src/main/java/com/ahastack/poromodo/ui/home/HomeFragment.kt:186-192 | the task is shown completed exactly when spent equals target, so a task past its target shows as in progress |
| `Home.ProgressTextRoundTrip` | app/src/main/java/com/ahastack/poromodo/ui/home/HomeFragment.kt:191-192 | the progress text has exactly one `/`; the part before reads as the count spent and the part after as the target |
| `SettingsScreen.ValidateDurations` | app/src/main/java/com/ahastack/poromodo/ui/settings/SettingsFragment.kt:109-135 | settings are saved exactly when all three durations are non-zero, and then hold exactly the entered values and the sound URI; otherwise the error goes to the first zero field in the order pomodoro, short break, long break |
| `SettingsScreen.ValidationExamples` | app/src/main/java/com/ahastack/poromodo/ui/settings/SettingsFragment.kt:110-123 | all zeros flag only the pomodoro field; a zero break hides a zero long break; negative durations are saved |
| `SettingsScreen.OnSaveClicked` | app/src/main/java/com/ahastack/poromodo/ui/settings/SettingsFragment.kt:105-143 | the handler's outcome is the validation result; on success the store holds the new settings and reads them back exactly; on an error the store is untouched |

## Left out

- The preference store's reactive streams (`Flow`, `StateFlow`) and `Context`. Each read is a function of the store's current contents. Re-emission on change is platform behaviour.
- Coroutines, `delay(1000)` and dispatchers. One second of the ticking job is one `Tick()` call. Cancelling a job clears the `ticking` flag.
- The race noted at PreferenceManager.kt:85, between launching the job and committing the edit. Every operation here runs to completion before the next one starts, so interleavings are not modelled.
- Storage failures. Every edit in the model succeeds; the platform store's I/O errors are not modelled.
- Reassigning the global cycle table while the app runs. The table is fixed when the manager is constructed.
- Stored cycle positions outside the table, and an empty table. The app throws in these cases; `StoreFits` excludes them.
- `GetSettings`, `GetFocusedTaskId`, `GetTimerInstance`, `SwitchedPrefs`, `AfterTicks` and `FormatTime`: these are plain projections or compositions with no contract of their own. What they mean is stated by the round-trip and transition lemmas in the table.
- `Cycle.NextDesiredIndex`, `Text.NatToString`, `Text.IntToString` and `Text.Format02d` have no row of their own. Their meaning is stated by lemmas in the table: `NextDesiredIndexFound`, `ForwardScanPrecedence`, `WrapAroundScan` and `NearestOccurrenceAfter` for the first; `NatToStringRoundTrip`, `IntToStringRoundTrip` and `Format02dDigits` for the other three.
- `Preferences.DataStoreManager.StartTheClock`: the cancel at PreferenceManager.kt:87 is modelled, but its effect is not proved. One `ticking` flag cannot describe two live jobs, so "any earlier job is ended" holds by the choice of state, not by the call.
- `PomodoroService.kt`: notification channels, media player and empty start/skip handlers, with no engine logic.
- All view code: binding, lifecycle, popup menus, animations, the task list, dialogs, the snackbar, and the view-model and task database calls. `vm.unFocusTask()` is not shown in that code; saving the id -1 with `SaveFocusTaskId` plays its part.
- Task fields other than the two counts used by the progress view.
- Text parsing of the inputs. `toInt()` and its exception on malformed text are outside the model: the parsed durations are the handler's inputs.
- The ringtone title lookup and URI parsing. The selected sound's URI string is an input.
- The locale behaviour of `String.format`. ASCII digits are assumed.
- The default field values of the `Settings` and `TimerInstance` data classes. The code always passes every field explicitly, so the defaults are never used.
