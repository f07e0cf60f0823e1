/** The question panel beside the multiple-choice part
    (frontend/src/views/student/Components/NumberOfQuestions.jsx): the grid of
    question numbers, the countdown and its MM:SS display, and the Finish
    button. The panel's `submitTest` is the exam page's; here each call of it
    is counted. */
module QuestionPanel {
  import opened Common

  const TimeUpMessage := "Time is up! Submitting your test..."

  /** `questionNumbers`: 1 to n. */
  function Numbers(n: nat): (r: seq<int>)
    ensures |r| == n && forall i :: 0 <= i < n ==> r[i] == i + 1
  {
    seq(n, i => i + 1)
  }

  function Min(a: int, b: int): int {
    if a < b then a else b
  }

  /** The rows joined back together. */
  function Flatten(rows: seq<seq<int>>): seq<int> {
    if rows == [] then [] else Flatten(rows[..|rows| - 1]) + rows[|rows| - 1]
  }

  /** The `for` loop that builds `rows`: slices of five numbers from the
      start (the comment's "up to 4" notwithstanding). Joined, the rows are
      1 to n again; each row but the last has five numbers, the last one to
      five. */
  method Rows(n: nat) returns (rows: seq<seq<int>>)
    ensures Flatten(rows) == Numbers(n)
    ensures |rows| == (n + 4) / 5
    ensures forall k :: 0 <= k < |rows| ==> rows[k] == Numbers(n)[5 * k..Min(5 * k + 5, n)]
    ensures forall k :: 0 <= k < |rows| - 1 ==> |rows[k]| == 5
    ensures forall k :: 0 <= k < |rows| ==> 1 <= |rows[k]| <= 5
  {
    var numbers := Numbers(n);
    rows := [];
    var i := 0;
    while i < n
      invariant i == 5 * |rows| && i < n + 5
      invariant Flatten(rows) == numbers[..Min(i, n)]
      invariant forall k :: 0 <= k < |rows| ==> rows[k] == numbers[5 * k..Min(5 * k + 5, n)]
      invariant forall k :: 0 <= k < |rows| ==> 5 * k < n
    {
      var row := numbers[i..Min(i + 5, n)];
      assert numbers[..Min(i + 5, n)] == numbers[..i] + row;
      assert rows + [row] == (rows + [row])[..|rows|] + [row];
      assert (rows + [row])[..|rows|] == rows;
      rows := rows + [row];
      i := i + 5;
    }
    assert numbers[..Min(i, n)] == numbers;
  }

  /** `formatTime`: whole minutes by floor division, seconds by `%`, each
      padded to two characters. */
  function FormatTime(seconds: int): string {
    Pad2(IntToString(seconds / 60)) + ":" + Pad2(IntToString(JsRem(seconds, 60)))
  }

  predicate AllDigits(s: string) {
    forall i :: 0 <= i < |s| ==> IsDigit(s[i])
  }

  /** Padding a numeral with zeros keeps it a numeral of the same value. */
  lemma PadKeepsValue(t: string)
    requires AllDigits(t)
    ensures AllDigits(Pad2(t)) && DigitsValue(Pad2(t)) == DigitsValue(t)
  {
    if |t| == 1 {
      var p := Pad2(t);
      assert p == "0" + t;
      assert p[..1] == "0";
      assert DigitsValue("0") == 0 by {
        assert "0"[..0] == [];
      }
      assert t[..0] == [];
    }
  }

  /** For a non-negative count of seconds the display is two numerals
      separated by ':' that read back as the count: minutes times 60 plus
      seconds, with the seconds below 60 and two digits wide. */
  lemma {:induction false} FormatTimeReadsBack(s: nat)
    ensures var mm := Pad2(NatToString(s / 60)); var ss := Pad2(NatToString(s % 60));
      && FormatTime(s) == mm + ":" + ss
      && AllDigits(mm) && AllDigits(ss) && |ss| == 2
      && DigitsValue(mm) * 60 + DigitsValue(ss) == s && DigitsValue(ss) < 60
  {
    NatToStringValue(s / 60);
    NatToStringValue(s % 60);
    NatToStringLength(s % 60);
    PadKeepsValue(NatToString(s / 60));
    PadKeepsValue(NatToString(s % 60));
  }

  /** Under 100 minutes the display is always five characters, "MM:SS". */
  lemma {:induction false} FormatTimeWidth(s: nat)
    requires s < 6000
    ensures |FormatTime(s)| == 5 && FormatTime(s)[2] == ':'
  {
    NatToStringLength(s / 60);
    NatToStringLength(s % 60);
  }

  /** The countdown of the panel. */
  class Countdown {
    /** Seconds left. */
    var timeLeft: int
    /** Whether the interval is still set. */
    var running: bool
    /** How often `submitTest` was called. */
    var submitCalls: nat
    var effects: seq<Effect>

    /** The panel mounts with the duration prop, which the exam page fills
        with the exam's minutes, times 60; the interval starts at once. */
    constructor (durationProp: int)
      ensures timeLeft == durationProp * 60 && running && submitCalls == 0 && effects == []
    {
      timeLeft := durationProp * 60;
      running := true;
      submitCalls := 0;
      effects := [];
    }

    /** The effect on a new duration prop: the count restarts from it, but a
        cleared interval is not set again. */
    method DurationChanged(durationProp: int)
      modifies this`timeLeft
      ensures timeLeft == durationProp * 60
    {
      timeLeft := durationProp * 60;
    }

    /** One firing of the interval. At one second or less the count becomes
        0, the interval is cleared and the test submitted with a warning;
        otherwise one second is taken off. */
    method Tick()
      requires running
      modifies this
      ensures old(timeLeft) <= 1 ==>
        timeLeft == 0 && !running && submitCalls == old(submitCalls) + 1
        && effects == old(effects) + [ToastWarning(TimeUpMessage)]
      ensures old(timeLeft) > 1 ==>
        timeLeft == old(timeLeft) - 1 && running && submitCalls == old(submitCalls) && effects == old(effects)
      ensures old(timeLeft) >= 0 ==> timeLeft >= 0
    {
      if timeLeft <= 1 {
        running := false;
        effects := effects + [ToastWarning(TimeUpMessage)];
        submitCalls := submitCalls + 1;
        timeLeft := 0;
      } else {
        timeLeft := timeLeft - 1;
      }
    }

    /** The Finish Test button: the same `submitTest` the timer calls. */
    method Finish()
      modifies this`submitCalls
      ensures submitCalls == old(submitCalls) + 1
    {
      submitCalls := submitCalls + 1;
    }

    /** Letting the interval fire until it is cleared: from t seconds it
        fires max(t, 1) times, never shows a negative count, and submits
        exactly once. A count of 0 (a duration not yet known) is submitted
        at the first firing. */
    method RunOut() returns (ticks: nat)
      requires running && timeLeft >= 0
      modifies this
      ensures ticks == if old(timeLeft) == 0 then 1 else old(timeLeft)
      ensures !running && timeLeft == 0 && submitCalls == old(submitCalls) + 1
      ensures effects == old(effects) + [ToastWarning(TimeUpMessage)]
    {
      ticks := 0;
      while running
        invariant timeLeft >= 0
        invariant running && ticks > 0 ==> timeLeft >= 1
        invariant running ==> submitCalls == old(submitCalls) && effects == old(effects)
        invariant !running ==>
          && timeLeft == 0 && submitCalls == old(submitCalls) + 1
          && effects == old(effects) + [ToastWarning(TimeUpMessage)]
          && ticks == (if old(timeLeft) == 0 then 1 else old(timeLeft))
        invariant running ==> timeLeft == old(timeLeft) - ticks
        decreases running, timeLeft
      {
        Tick();
        ticks := ticks + 1;
      }
    }
  }
}
