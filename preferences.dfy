/**
  `DataStoreManager`: the timer state store of the Pomodoro app. The
  preference store is a record with one optional value per key (`None` for a
  key never written); the reactive reads are functions of its current
  contents; the live countdown counter and the ticking job are fields of the
  manager object that its methods update.
 */
module Preferences {
  import opened Types
  import opened Cycle

  const PodomoroDefaultDurationMin: i32 := 25
  const BreakDefaultDurationMin: i32 := 5
  const LongBreakDefaultDurationMin: i32 := 15

  /** The focused-task id that stands for "no task is focused". */
  const TerminalFocusTaskId: i64 := -1

  /** User settings: three durations in minutes and the notification sound's URI. */
  datatype Settings = Settings(podomoroDuration: i32, breakTime: i32, longBreakTime: i32, notiSoundTrack: string)

  /** One snapshot of the timer as the screens see it. */
  datatype TimerInstance = TimerInstance(
    timeLeft: i32,
    timeTotal: i32,
    currentCycleIdx: i32,
    currentPhase: Phase,
    isRunning: bool)

  /** The preference store's contents, one field per key. */
  datatype Prefs = Prefs(
    pomodoroDuration: Option<i32>,      // "pomodoro_duration", minutes
    breakTime: Option<i32>,             // "break_time", minutes
    longBreakTime: Option<i32>,         // "long_break_time", minutes
    notificationSound: Option<string>,  // "notification_sound"
    cycleIndex: Option<i32>,            // "POMODORO_CYCLE_INDEX"
    timeRemaining: Option<i32>,         // "TIME_REMAINING", seconds
    isRunning: Option<bool>,            // "IS_RUNNING"
    focusedTaskId: Option<i64>)         // "FOCUSED_TASK"

  /** A store no key has been written to. */
  const EmptyPrefs: Prefs := Prefs(None, None, None, None, None, None, None, None)

  /** The cycle position the store is at; an unwritten index means position 0. */
  function CurrentIndex(p: Prefs): int {
    p.cycleIndex.GetOr(0)
  }

  /** The state every operation of the store relies on: the cycle table can be indexed by an `Int`
      and the stored position is one of its entries (otherwise the app's array access throws). */
  predicate StoreFits(p: Prefs, cycle: seq<Phase>) {
    |cycle| <= Int32Max && 0 <= CurrentIndex(p) < |cycle|
  }

  /** The minutes configured for a phase, if that key was ever written. */
  function StoredMinutes(p: Prefs, ph: Phase): Option<i32> {
    match ph
    case Podomoro => p.pomodoroDuration
    case Break => p.breakTime
    case LongBreak => p.longBreakTime
  }

  /** The length in seconds of a phase: its stored minutes times 60, computed in 32-bit `Int`
      arithmetic; 0 (not the default minutes) when the duration was never saved. */
  function PhaseDuration(p: Prefs, ph: Phase): (s: i32)
    ensures StoredMinutes(p, ph).None? ==> s == 0
    ensures StoredMinutes(p, ph).Some? ==> (StoredMinutes(p, ph).value * 60 - s) % 0x1_0000_0000 == 0
    ensures StoredMinutes(p, ph).Some? && IsInt32(StoredMinutes(p, ph).value * 60) ==>
              s == StoredMinutes(p, ph).value * 60
  {
    match StoredMinutes(p, ph)
    case None => 0
    case Some(d) => Wrap32(d * 60)
  }

  /** `getSettings`: each stored setting, or its default when the key is absent. */
  function GetSettings(p: Prefs): Settings {
    Settings(
      p.pomodoroDuration.GetOr(PodomoroDefaultDurationMin),
      p.breakTime.GetOr(BreakDefaultDurationMin),
      p.longBreakTime.GetOr(LongBreakDefaultDurationMin),
      p.notificationSound.GetOr(""))
  }

  /** The store after `saveSettings(s)`: the four settings keys written, nothing else touched. */
  function WithSettings(p: Prefs, s: Settings): Prefs {
    p.(pomodoroDuration := Some(s.podomoroDuration),
       breakTime := Some(s.breakTime),
       longBreakTime := Some(s.longBreakTime),
       notificationSound := Some(s.notiSoundTrack))
  }

  /** `getFocusedTaskId`: the stored id, or the "no task" sentinel. */
  function GetFocusedTaskId(p: Prefs): i64 {
    p.focusedTaskId.GetOr(TerminalFocusTaskId)
  }

  /** The snapshot `getTimerInstance` builds from the store. */
  function GetTimerInstance(p: Prefs, cycle: seq<Phase>): (r: TimerInstance)
    requires StoreFits(p, cycle)
  {
    var idx := CurrentIndex(p);
    var total := PhaseDuration(p, cycle[idx]);
    TimerInstance(p.timeRemaining.GetOr(total), total, idx, cycle[idx], p.isRunning == Some(true))
  }

  /** The store after `switchToNextDesiredPhase(phase)`: the new position and that phase's full
      duration as the remaining time, or the store as it was when the phase is not in the table. */
  function SwitchedPrefs(p: Prefs, cycle: seq<Phase>, phase: Phase): Prefs
    requires StoreFits(p, cycle)
  {
    match NextDesiredIndex(cycle, CurrentIndex(p), phase)
    case None => p
    case Some(i) => p.(cycleIndex := Some(i), timeRemaining := Some(PhaseDuration(p, cycle[i])))
  }

  /** One second of the ticking job: the counter moves down by at most one, it moves exactly when
      it is positive, and a counter at 0 or above never goes below 0. */
  function TickOnce(c: i32): (r: i32)
    ensures c - 1 <= r <= c
    ensures r < c <==> c > 0
    ensures c >= 0 ==> r >= 0
  {
    if c > 0 then c - 1 else c
  }

  /** The counter after `n` seconds of an uninterrupted ticking job. */
  function AfterTicks(c: i32, n: nat): i32 {
    if n == 0 then c else TickOnce(AfterTicks(c, n - 1))
  }

  /** The countdown goes down by exactly one per second until it reaches 0 and then stays there;
      it never goes below 0, and a counter that starts negative (a negative saved duration) is left as it is. */
  lemma {:induction false} CountdownClosedForm(c: i32, n: nat)
    ensures c >= 0 ==> AfterTicks(c, n) == (if n <= c then c - n else 0)
    ensures c < 0 ==> AfterTicks(c, n) == c
  {
    if n > 0 {
      CountdownClosedForm(c, n - 1);
    }
  }

  /** Saving settings and reading them back gives exactly what was saved. */
  lemma SettingsRoundTrip(p: Prefs, s: Settings)
    ensures GetSettings(WithSettings(p, s)) == s
  {
  }

  /** Until anything is saved, the settings are 25 / 5 / 15 minutes and no sound, and no task is focused. */
  lemma FreshStoreDefaults()
    ensures GetSettings(EmptyPrefs) == Settings(25, 5, 15, "")
    ensures GetFocusedTaskId(EmptyPrefs) == -1
  {
  }

  /** The focused-task id reads back as what was last saved. */
  lemma FocusedTaskRoundTrip(p: Prefs, t: i64)
    ensures GetFocusedTaskId(p.(focusedTaskId := Some(t))) == t
  {
  }

  /** On a fresh store the timer shows position 0 with a total (and remaining) time of 0 seconds:
      the duration lookup finds no saved minutes, although the settings read back 25 minutes. */
  lemma FreshStoreTimer(cycle: seq<Phase>)
    requires 0 < |cycle| <= Int32Max
    ensures GetTimerInstance(EmptyPrefs, cycle) == TimerInstance(0, 0, 0, cycle[0], false)
    ensures GetSettings(EmptyPrefs).podomoroDuration == 25
  {
  }

  /** A focus period of 25 saved minutes lasts 1500 seconds. */
  lemma DurationExample(p: Prefs)
    ensures PhaseDuration(p.(pomodoroDuration := Some(25)), Podomoro) == 1500
  {
  }

  /** After a successful switch the timer shows the requested phase, at the position the scan chose,
      with its full duration left; running flag, focused task and settings are untouched. After a switch
      to a phase absent from the table, the store is unchanged. */
  lemma {:induction false} TimerAfterSwitch(p: Prefs, cycle: seq<Phase>, phase: Phase)
    requires StoreFits(p, cycle)
    ensures StoreFits(SwitchedPrefs(p, cycle, phase), cycle)
    ensures phase !in cycle ==> SwitchedPrefs(p, cycle, phase) == p
    ensures phase in cycle ==>
              var q := SwitchedPrefs(p, cycle, phase);
              var t := GetTimerInstance(q, cycle);
              Some(t.currentCycleIdx as nat) == NextDesiredIndex(cycle, CurrentIndex(p), phase) &&
              t.currentPhase == phase &&
              t.timeLeft == t.timeTotal == PhaseDuration(p, phase) &&
              t.isRunning == GetTimerInstance(p, cycle).isRunning &&
              GetSettings(q) == GetSettings(p) &&
              GetFocusedTaskId(q) == GetFocusedTaskId(p)
  {
    NextDesiredIndexFound(cycle, CurrentIndex(p), phase);
  }

  /** Saving settings changes the total time of the current phase but not a stored remaining time. */
  lemma TimerAfterSaveSettings(p: Prefs, cycle: seq<Phase>, s: Settings)
    requires StoreFits(p, cycle)
    ensures var t := GetTimerInstance(WithSettings(p, s), cycle);
            var u := GetTimerInstance(p, cycle);
            t.currentCycleIdx == u.currentCycleIdx && t.currentPhase == u.currentPhase &&
            t.isRunning == u.isRunning &&
            (p.timeRemaining.Some? ==> t.timeLeft == u.timeLeft) &&
            t.timeTotal == PhaseDuration(WithSettings(p, s), u.currentPhase)
  {
  }

  /**
    The manager object. `cycle` is the cycle table (the app's global `POMODORO_CYCLE`, given
    here at construction), `prefs` the preference store, `timeRemaining` the live counter the
    screens observe, and `ticking` whether a ticking job (`timerJob`) is alive.
   */
  class DataStoreManager {
    const cycle: seq<Phase>
    var prefs: Prefs
    var timeRemaining: i32
    var ticking: bool

    ghost predicate Valid()
      reads this
    {
      StoreFits(prefs, cycle)
    }

    constructor (cycle: seq<Phase> := DefaultCycle)
      requires 0 < |cycle| <= Int32Max
      ensures Valid()
      ensures this.cycle == cycle && prefs == EmptyPrefs && timeRemaining == 0 && !ticking
    {
      this.cycle := cycle;
      prefs := EmptyPrefs;
      timeRemaining := 0;
      ticking := false;
    }

    /** `cancelTickingJob`: the ticking job, if any, ends. */
    method CancelTickingJob()
      modifies this`ticking
      ensures !ticking
    {
      ticking := false;
    }

    /** `startTheClock`: ends any earlier ticking job, marks the store running, loads the stored
        remaining time (0 if none) into the counter and launches a ticking job, which ends at once
        when the counter is not positive. */
    method StartTheClock()
      requires Valid()
      modifies this`prefs, this`timeRemaining, this`ticking
      ensures Valid()
      ensures prefs == old(prefs).(isRunning := Some(true))
      ensures timeRemaining == old(prefs).timeRemaining.GetOr(0)
      ensures ticking <==> timeRemaining > 0
    {
      CancelTickingJob();
      prefs := prefs.(isRunning := Some(true));
      timeRemaining := prefs.timeRemaining.GetOr(0);
      ticking := timeRemaining > 0;
    }

    /** One second of the ticking job: the counter ticks once and the job ends unless it is still positive.
        Without a job, nothing changes. */
    method Tick()
      modifies this`timeRemaining, this`ticking
      ensures timeRemaining == if old(ticking) then TickOnce(old(timeRemaining)) else old(timeRemaining)
      ensures ticking <==> old(ticking) && timeRemaining > 0
    {
      if ticking {
        if timeRemaining > 0 {
          timeRemaining := timeRemaining - 1;
        }
        ticking := timeRemaining > 0;
      }
    }

    /** The ticking job left to run until it ends by itself: it takes as many seconds as the counter
        held (one when it was not positive) and leaves the counter at 0 (or where a non-positive one was). */
    method RunTickingJob() returns (seconds: nat)
      modifies this`timeRemaining, this`ticking
      ensures !ticking
      ensures timeRemaining == AfterTicks(old(timeRemaining), seconds)
      ensures !old(ticking) ==> seconds == 0
      ensures old(ticking) ==> seconds == if old(timeRemaining) > 0 then old(timeRemaining) else 1
      ensures old(ticking) ==> timeRemaining == if old(timeRemaining) > 0 then 0 else old(timeRemaining)
    {
      ghost var c0 := timeRemaining;
      seconds := 0;
      while ticking
        invariant timeRemaining == AfterTicks(c0, seconds)
        invariant !old(ticking) ==> seconds == 0
        invariant old(ticking) && c0 > 0 ==> seconds <= c0 && (ticking <==> seconds < c0)
        invariant old(ticking) && c0 <= 0 ==> seconds <= 1 && (ticking <==> seconds == 0)
        decreases ticking, if timeRemaining > 0 then timeRemaining else 0
      {
        CountdownClosedForm(c0, seconds + 1);
        Tick();
        seconds := seconds + 1;
      }
      CountdownClosedForm(c0, seconds);
    }

    /** `stopTheClock`: ends the ticking job and marks the store not running; the stored remaining
        time and the counter stay as they were. */
    method StopTheClock()
      requires Valid()
      modifies this`prefs, this`ticking
      ensures Valid()
      ensures prefs == old(prefs).(isRunning := Some(false))
      ensures !ticking
    {
      CancelTickingJob();
      prefs := prefs.(isRunning := Some(false));
    }

    /** `getDurationFromCycleIndex`: the duration of the phase at `idx` (position 0 when absent),
        which it also puts into the live counter. */
    method DurationFromCycleIndex(p: Prefs, idx: Option<i32>) returns (s: i32)
      requires 0 <= idx.GetOr(0) < |cycle|
      modifies this`timeRemaining
      ensures s == PhaseDuration(p, cycle[idx.GetOr(0)])
      ensures timeRemaining == s
    {
      var cIdx := idx.GetOr(0);
      var ph := cycle[cIdx];
      var d := StoredMinutes(p, ph);
      s := if d.None? then 0 else Wrap32(d.value as int * 60);
      timeRemaining := s;
    }

    /** One emission of `getTimerInstance`: the snapshot of the store, built through the duration
        lookup, so that reading it also resets the live counter to the phase's total time. */
    method ObserveTimerInstance() returns (r: TimerInstance)
      requires Valid()
      modifies this`timeRemaining
      ensures r == GetTimerInstance(prefs, cycle)
      ensures timeRemaining == r.timeTotal
    {
      var currCycleIdx := prefs.cycleIndex.GetOr(0);
      var currCycleTotalTime := DurationFromCycleIndex(prefs, Some(currCycleIdx));
      r := TimerInstance(
        prefs.timeRemaining.GetOr(currCycleTotalTime),
        currCycleTotalTime,
        currCycleIdx,
        cycle[currCycleIdx],
        prefs.isRunning == Some(true));
    }

    /** `saveSettings`: writes the four settings keys. */
    method SaveSettings(s: Settings)
      modifies this`prefs
      ensures prefs == WithSettings(old(prefs), s)
      ensures Valid() == old(Valid())
    {
      prefs := prefs.(pomodoroDuration := Some(s.podomoroDuration));
      prefs := prefs.(breakTime := Some(s.breakTime));
      prefs := prefs.(longBreakTime := Some(s.longBreakTime));
      prefs := prefs.(notificationSound := Some(s.notiSoundTrack));
    }

    /** `saveFocusTaskId`: writes the focused-task id (the sentinel -1 clears the focus). */
    method SaveFocusTaskId(taskId: i64)
      modifies this`prefs
      ensures prefs == old(prefs).(focusedTaskId := Some(taskId))
      ensures Valid() == old(Valid())
    {
      prefs := prefs.(focusedTaskId := Some(taskId));
    }

    /** `switchToNextDesiredPhase`: a forward scan from the position after the current one to the end
        of the table, then a scan of the whole table from 0; the first position holding `phase` becomes
        the current one and its full duration the remaining time (and the counter). When `phase` is
        nowhere in the table, nothing changes. */
    method SwitchToNextDesiredPhase(phase: Phase)
      requires Valid()
      modifies this`prefs, this`timeRemaining
      ensures Valid()
      ensures prefs == SwitchedPrefs(old(prefs), cycle, phase)
      ensures timeRemaining == match NextDesiredIndex(cycle, CurrentIndex(old(prefs)), phase)
                               case Some(i) => PhaseDuration(old(prefs), cycle[i])
                               case None => old(timeRemaining)
    {
      var curr := prefs.cycleIndex.GetOr(0);
      var s := |cycle|;
      var idx := (curr + 1) % s;
      ghost var start := idx;
      while idx < s
        invariant start <= idx <= s
        invariant FirstIndexFrom(cycle, start, phase) == FirstIndexFrom(cycle, idx, phase)
        invariant prefs == old(prefs) && timeRemaining == old(timeRemaining)
      {
        if cycle[idx] == phase {
          prefs := prefs.(cycleIndex := Some(idx));
          var seconds := DurationFromCycleIndex(prefs, Some(idx));
          prefs := prefs.(timeRemaining := Some(seconds));
          return;
        }
        idx := idx + 1;
      }

      idx := 0;
      while idx < s
        invariant 0 <= idx <= s
        invariant FirstIndexFrom(cycle, 0, phase) == FirstIndexFrom(cycle, idx, phase)
        invariant prefs == old(prefs) && timeRemaining == old(timeRemaining)
      {
        if cycle[idx] == phase {
          prefs := prefs.(cycleIndex := Some(idx));
          var seconds := DurationFromCycleIndex(prefs, Some(idx));
          prefs := prefs.(timeRemaining := Some(seconds));
          return;
        }
        idx := idx + 1;
      }
    }
  }

  /** A client of the manager: skipping to the next focus period, starting, one second, pausing and
      resuming. The counter is never written back to the store, so resuming reloads the remaining time
      saved when the phase was entered. */
  method PauseAndResume()
  {
    var m := new DataStoreManager();
    m.SaveSettings(Settings(25, 5, 15, ""));
    assert NextDesiredIndex(DefaultCycle, 0, Podomoro) == Some(2);
    m.SwitchToNextDesiredPhase(Podomoro);
    assert m.prefs.cycleIndex == Some(2) && m.prefs.timeRemaining == Some(1500);
    m.StartTheClock();
    m.Tick();
    assert m.timeRemaining == 1499 && m.ticking;
    m.StopTheClock();
    assert m.timeRemaining == 1499 && m.prefs.timeRemaining == Some(1500) && m.prefs.isRunning == Some(false);
    m.StartTheClock();
    assert m.timeRemaining == 1500;
    m.Tick();
    var t := m.ObserveTimerInstance();
    assert t == TimerInstance(1500, 1500, 2, Podomoro, true) && m.timeRemaining == 1500;
  }
}
