/**
  The Pomodoro cycle table and the scan that resolves "skip to phase X"
  when X occurs several times in one cycle.
 */
module Cycle {
  import opened Types

  /** `PomodoroPhase`: a focus period (spelled PODOMORO in the app), a short break or a long break. */
  datatype Phase = Podomoro | Break | LongBreak

  /** `POMODORO_CYCLE`: four focus/short-break pairs, then the long break. */
  const DefaultCycle: seq<Phase> :=
    [Podomoro, Break, Podomoro, Break, Podomoro, Break, Podomoro, Break, LongBreak]

  /** The first position at or after `from` that holds `phase`. */
  function FirstIndexFrom(cycle: seq<Phase>, from: nat, phase: Phase): (r: Option<nat>)
    ensures r.Some? ==> from <= r.value < |cycle| && cycle[r.value] == phase
    ensures r.Some? ==> forall j :: from <= j < r.value ==> cycle[j] != phase
    ensures r.None? ==> forall j :: from <= j < |cycle| ==> cycle[j] != phase
    decreases |cycle| - from
  {
    if from >= |cycle| then None
    else if cycle[from] == phase then Some(from)
    else FirstIndexFrom(cycle, from + 1, phase)
  }

  /** Where the forward scan of `switchToNextDesiredPhase` starts: the position after `curr`, or 0 after the last one. */
  function ScanStart(cycle: seq<Phase>, curr: nat): nat
    requires curr < |cycle|
  {
    (curr + 1) % |cycle|
  }

  /** The position `switchToNextDesiredPhase` moves to from `curr`: the first match of the forward
      scan, or else the first match of the wrap-around scan over the whole table; `None` when
      `phase` is nowhere in the table. */
  function NextDesiredIndex(cycle: seq<Phase>, curr: nat, phase: Phase): Option<nat>
    requires curr < |cycle|
  {
    match FirstIndexFrom(cycle, ScanStart(cycle, curr), phase)
    case Some(i) => Some(i)
    case None => FirstIndexFrom(cycle, 0, phase)
  }

  /** How many single steps forward, wrapping at the end of a table of length `s`, lead from `from`
      to `to`; going all the way round back to `from` itself takes `s` steps. */
  function StepsForward(s: nat, from: nat, to: nat): nat
    requires from < s && to < s
  {
    if to > from then to - from else to - from + s
  }

  /** A switch succeeds exactly when the phase occurs in the table, and then lands on that phase. */
  lemma NextDesiredIndexFound(cycle: seq<Phase>, curr: nat, phase: Phase)
    requires curr < |cycle|
    ensures NextDesiredIndex(cycle, curr, phase).Some? <==> phase in cycle
    ensures NextDesiredIndex(cycle, curr, phase).Some? ==>
              var i := NextDesiredIndex(cycle, curr, phase).value;
              i < |cycle| && cycle[i] == phase
  {
    if phase in cycle {
      var k :| 0 <= k < |cycle| && cycle[k] == phase;
      assert FirstIndexFrom(cycle, 0, phase).Some?;
    }
  }

  /** If the phase occurs in the forward range [ScanStart, |cycle|), the lowest such position wins. */
  lemma ForwardScanPrecedence(cycle: seq<Phase>, curr: nat, phase: Phase, j: nat)
    requires curr < |cycle|
    requires ScanStart(cycle, curr) <= j < |cycle| && cycle[j] == phase
    ensures NextDesiredIndex(cycle, curr, phase).Some?
    ensures var i := NextDesiredIndex(cycle, curr, phase).value;
            ScanStart(cycle, curr) <= i <= j && cycle[i] == phase &&
            forall k :: ScanStart(cycle, curr) <= k < i ==> cycle[k] != phase
  {
  }

  /** The forward scan starts right after `curr`, except after the last position, where it starts at 0. */
  lemma ScanStartValue(cycle: seq<Phase>, curr: nat)
    requires curr < |cycle|
    ensures ScanStart(cycle, curr) == if curr + 1 < |cycle| then curr + 1 else 0
  {
  }

  /** If the forward range holds no match, the lowest position of the whole table holding the phase wins. */
  lemma WrapAroundScan(cycle: seq<Phase>, curr: nat, phase: Phase)
    requires curr < |cycle|
    requires forall k :: ScanStart(cycle, curr) <= k < |cycle| ==> cycle[k] != phase
    ensures NextDesiredIndex(cycle, curr, phase) == FirstIndexFrom(cycle, 0, phase)
    ensures match NextDesiredIndex(cycle, curr, phase)
            case Some(i) => i <= curr && forall k :: 0 <= k < i ==> cycle[k] != phase
            case None => phase !in cycle
  {
    ScanStartValue(cycle, curr);
    var start := ScanStart(cycle, curr);
    assert FirstIndexFrom(cycle, start, phase).None?;
    var first := FirstIndexFrom(cycle, 0, phase);
    if first.Some? {
      assert first.value < start;
    } else {
      forall k | 0 <= k < |cycle|
        ensures cycle[k] != phase
      {
      }
    }
  }

  /** The two scans together pick the occurrence of the phase nearest after `curr`, going forward and
      wrapping round, with `curr` itself counted as the farthest: any other position `j` holding the
      phase takes more forward steps to reach than the chosen one. */
  lemma {:induction false} NearestOccurrenceAfter(cycle: seq<Phase>, curr: nat, phase: Phase, j: nat)
    requires curr < |cycle|
    requires j < |cycle| && cycle[j] == phase
    ensures NextDesiredIndex(cycle, curr, phase).Some?
    ensures var i := NextDesiredIndex(cycle, curr, phase).value;
            i < |cycle| && cycle[i] == phase &&
            (j != i ==> StepsForward(|cycle|, curr, i) < StepsForward(|cycle|, curr, j))
  {
    NextDesiredIndexFound(cycle, curr, phase);
    ScanStartValue(cycle, curr);
    var start := ScanStart(cycle, curr);
    var i := NextDesiredIndex(cycle, curr, phase).value;
    var first := FirstIndexFrom(cycle, start, phase);
    if first.Some? {
      assert i == first.value && start <= i;
      assert j != i ==> j < start || i < j;
    } else {
      WrapAroundScan(cycle, curr, phase);
      assert i < start && i <= curr;
      assert j != i ==> i < j < start;
    }
  }

  /** From the first focus period, asking for a short break goes to position 1, not 3. */
  lemma DefaultCycleForwardExample()
    ensures NextDesiredIndex(DefaultCycle, 0, Break) == Some(1)
  {
  }

  /** From the last short break (position 7) there is no later focus period, so the scan wraps to 0;
      from the long break (position 8) the forward scan already starts at 0. */
  lemma DefaultCycleWrapExample()
    ensures NextDesiredIndex(DefaultCycle, 7, Podomoro) == Some(0)
    ensures NextDesiredIndex(DefaultCycle, 8, Podomoro) == Some(0)
    ensures NextDesiredIndex(DefaultCycle, 8, LongBreak) == Some(8)
  {
  }

  /** A shorter table of focus, break, focus, break, long break: from the long break (4) asking for
      focus wraps to 0, not 2; from 0 asking for a break gives 1, not 3. */
  lemma FiveEntryCycleExample()
    ensures NextDesiredIndex([Podomoro, Break, Podomoro, Break, LongBreak], 4, Podomoro) == Some(0)
    ensures NextDesiredIndex([Podomoro, Break, Podomoro, Break, LongBreak], 0, Break) == Some(1)
    ensures NextDesiredIndex([Podomoro, Break], 1, LongBreak) == None
  {
  }
}
