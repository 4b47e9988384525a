/**
  The two computations of the home screen: the `mm:ss` text of the
  countdown, and the completion mark and progress text of the focused task.
 */
module Home {
  import opened Types
  import opened Text

  /** `formatTime`: the whole minutes and the leftover seconds of a second count (Kotlin's
      truncating `/` and `%`), each printed with `%02d`, joined by a colon. */
  function FormatTime(seconds: i32): string {
    Format02d(TDiv(seconds, 60)) + ":" + Format02d(TRem(seconds, 60))
  }

  /** For a non-negative count the text is a minutes field of at least two digits, a colon and a
      seconds field of exactly two digits below 60; read back, the fields give the count again
      (minutes × 60 + seconds); below 100 minutes the text is exactly `MM:SS`, and from 10 minutes on
      the minutes field has no leading zero. */
  lemma FormatTimeFields(seconds: i32)
    requires seconds >= 0
    ensures var t := FormatTime(seconds);
            |t| >= 5 && t[|t| - 3] == ':' &&
            var m, r := t[..|t| - 3], t[|t| - 2..];
            AllDigits(m) && |m| >= 2 && AllDigits(r) && |r| == 2 &&
            DecimalValue(r) < 60 && DecimalValue(m) * 60 + DecimalValue(r) == seconds &&
            (seconds < 6000 ==> |t| == 5) &&
            (seconds >= 600 ==> t[0] != '0')
  {
    var mins, secs := TDiv(seconds, 60), TRem(seconds, 60);
    Format02dDigits(mins);
    Format02dDigits(secs);
    var t := FormatTime(seconds);
    var m, r := Format02d(mins), Format02d(secs);
    assert t == m + ":" + r;
    assert t[..|t| - 3] == m;
    assert t[|t| - 2..] == r;
  }

  /** 25 minutes print as "25:00", nothing left as "00:00", and 100 minutes need a third digit. */
  lemma FormatTimeExamples()
    ensures FormatTime(1500) == "25:00"
    ensures FormatTime(0) == "00:00"
    ensures FormatTime(599) == "09:59"
    ensures FormatTime(6000) == "100:00"
  {
    assert NatToString(0) == "0";
    assert NatToString(2) == "2" && NatToString(25) == "25";
    assert NatToString(9) == "9" && NatToString(5) == "5" && NatToString(59) == "59";
    assert NatToString(1) == "1" && NatToString(10) == "10" && NatToString(100) == "100";
  }

  /** A negative count keeps Kotlin's truncating division: both fields come out negative. */
  lemma FormatTimeNegative()
    ensures FormatTime(-61) == "-1:-1"
  {
    assert NatToString(1) == "1";
  }

  /** The part of a task the home screen's focused-task view computes with. */
  datatype Task = Task(numOfPodomoroSpend: i32, numOfPodomoroToComplete: i32)

  /** What the focused-task view shows: the done or in-progress icon, and the `spend/toComplete` text. */
  datatype TaskProgress = TaskProgress(completed: bool, text: string)

  /** The focused task counts as completed exactly when the focus periods spent equal the target:
      a task that overshoots its target shows as still in progress. */
  function FocusedTaskProgress(t: Task): (r: TaskProgress)
    ensures r.completed <==> t.numOfPodomoroSpend == t.numOfPodomoroToComplete
    ensures t.numOfPodomoroSpend > t.numOfPodomoroToComplete ==> !r.completed
  {
    TaskProgress(
      t.numOfPodomoroSpend == t.numOfPodomoroToComplete,
      IntToString(t.numOfPodomoroSpend) + "/" + IntToString(t.numOfPodomoroToComplete))
  }

  /** The progress text holds exactly one `/`; the text before it reads as the focus periods spent
      and the text after it as the target. */
  lemma ProgressTextRoundTrip(t: Task)
    ensures var s := FocusedTaskProgress(t).text;
            var k := |IntToString(t.numOfPodomoroSpend)|;
            k < |s| && s[k] == '/' &&
            ParseInt(s[..k]) == Some(t.numOfPodomoroSpend as int) &&
            ParseInt(s[k + 1..]) == Some(t.numOfPodomoroToComplete as int) &&
            forall j :: 0 <= j < |s| && j != k ==> s[j] != '/'
  {
    var a, b := IntToString(t.numOfPodomoroSpend), IntToString(t.numOfPodomoroToComplete);
    IntToStringRoundTrip(t.numOfPodomoroSpend);
    IntToStringRoundTrip(t.numOfPodomoroToComplete);
    var s := FocusedTaskProgress(t).text;
    assert s == a + "/" + b;
    assert s[..|a|] == a;
    assert s[|a| + 1..] == b;
    forall j | 0 <= j < |s| && j != |a|
      ensures s[j] != '/'
    {
      if j < |a| {
        assert s[j] == a[j];
      } else {
        assert s[j] == b[j - |a| - 1];
      }
    }
  }
}
