/**
 * The Pomodoro timer widget: a work/break cycle whose record the dashboard
 * creates lazily and then mutates in place from button handlers and from a
 * one-second interval callback.
 */
module Pomodoro {
  import opened Wrappers
  import opened Text

  datatype Mode = Work | Break

  function Flip(m: Mode): (r: Mode)
    ensures r != m
  {
    if m == Work then Break else Work
  }

  /** Default lengths of a fresh timer: 25 minutes of work, 5 of break, in seconds. */
  const DefaultWork: int := 25 * 60
  const DefaultBreak: int := 5 * 60

  /**
   * The timer record. `isRunning` stands for the installed one-second
   * interval as well: the source installs it exactly when it sets the flag
   * and clears it exactly when it resets the flag.
   */
  class Timer {
    var mode: Mode
    var isRunning: bool
    var timeLeft: int
    var workDuration: int
    var breakDuration: int

    ghost predicate Valid()
      reads this
    {
      DurationsPositive() && timeLeft > 0
    }

    ghost predicate DurationsPositive()
      reads this
    {
      workDuration > 0 && breakDuration > 0
    }

    /** The full length of the current mode. */
    function ModeDuration(): int
      reads this
    {
      if mode == Work then workDuration else breakDuration
    }

    /** The lazy default of a timer widget that has no timer data yet. */
    constructor ()
      ensures Valid()
      ensures mode == Work && !isRunning
      ensures timeLeft == workDuration == 1500 && breakDuration == 300
    {
      mode := Work;
      isRunning := false;
      timeLeft := DefaultWork;
      workDuration := DefaultWork;
      breakDuration := DefaultBreak;
    }

    method Start()
      modifies this
      ensures isRunning
      ensures mode == old(mode) && timeLeft == old(timeLeft)
      ensures workDuration == old(workDuration) && breakDuration == old(breakDuration)
    {
      isRunning := true;
    }

    method Pause()
      modifies this
      ensures !isRunning
      ensures mode == old(mode) && timeLeft == old(timeLeft)
      ensures workDuration == old(workDuration) && breakDuration == old(breakDuration)
    {
      isRunning := false;
    }

    method Toggle()
      modifies this
      ensures isRunning == !old(isRunning)
      ensures mode == old(mode) && timeLeft == old(timeLeft)
      ensures workDuration == old(workDuration) && breakDuration == old(breakDuration)
    {
      if isRunning {
        Pause();
      } else {
        Start();
      }
    }

    /** Stops the timer and puts the whole current-mode duration back on the clock. */
    method Reset()
      requires Valid()
      modifies this
      ensures Valid()
      ensures !isRunning && mode == old(mode)
      ensures timeLeft == ModeDuration()
      ensures workDuration == old(workDuration) && breakDuration == old(breakDuration)
    {
      Pause();
      timeLeft := if mode == Work then workDuration else breakDuration;
    }

    /** Stops the timer, flips work and break, and loads the new mode's duration. */
    method SwitchMode()
      requires DurationsPositive()
      modifies this
      ensures Valid()
      ensures !isRunning && mode == Flip(old(mode))
      ensures timeLeft == ModeDuration()
      ensures workDuration == old(workDuration) && breakDuration == old(breakDuration)
    {
      Pause();
      mode := if mode == Work then Break else Work;
      timeLeft := if mode == Work then workDuration else breakDuration;
    }

    /** The end of a period: switch mode and start again (the browser notification is left out). */
    method Complete()
      requires DurationsPositive()
      modifies this
      ensures Valid()
      ensures isRunning && mode == Flip(old(mode))
      ensures timeLeft == ModeDuration()
      ensures workDuration == old(workDuration) && breakDuration == old(breakDuration)
    {
      Pause();
      SwitchMode();
      Start();
    }

    /** One firing of the one-second interval, which exists only while the timer runs. */
    method Tick()
      requires Valid() && isRunning
      modifies this
      ensures Valid() && isRunning
      ensures workDuration == old(workDuration) && breakDuration == old(breakDuration)
      ensures old(timeLeft) > 1 ==> mode == old(mode) && timeLeft == old(timeLeft) - 1
      ensures old(timeLeft) <= 1 ==> mode == Flip(old(mode)) && timeLeft == ModeDuration()
    {
      timeLeft := timeLeft - 1;
      if timeLeft <= 0 {
        Complete();
      }
    }

    /**
     * The timer branch of the settings form: both durations are set from
     * whole minutes (the form admits 1..60 for work and 1..30 for break);
     * the time on the clock, the mode and the running state are kept.
     */
    method ApplySettings(workMinutes: int, breakMinutes: int)
      requires Valid()
      requires 1 <= workMinutes <= 60 && 1 <= breakMinutes <= 30
      modifies this
      ensures Valid()
      ensures workDuration == workMinutes * 60 && breakDuration == breakMinutes * 60
      ensures mode == old(mode) && isRunning == old(isRunning) && timeLeft == old(timeLeft)
    {
      workDuration := workMinutes * 60;
      breakDuration := breakMinutes * 60;
    }
  }

  /** `formatTime`: whole minutes and remaining seconds, each padded to two digits. */
  function FormatTime(seconds: nat): (r: string)
    ensures |r| >= 5
  {
    PadStart2(NatToString(seconds / 60)) + ":" + PadStart2(NatToString(seconds % 60))
  }

  /** The number of seconds a clock showing `mins` and `secs` stands for. */
  function ClockSeconds(mins: nat, secs: nat): nat {
    mins * 60 + secs
  }

  /** The seconds shown by a minutes field and a seconds field, when both are digits and the seconds are below 60. */
  function ParseFields(mins: string, secs: string): Option<nat> {
    if AllDigits(mins) && AllDigits(secs) && ParseNat(secs) < 60
    then Some(ClockSeconds(ParseNat(mins), ParseNat(secs)))
    else None
  }

  /** Reads an `M...M:SS` clock display back into seconds. */
  function ParseClock(r: string): (s: Option<nat>)
  {
    if |r| < 5 || r[|r| - 3] != ':' then None
    else ParseFields(r[..|r| - 3], r[|r| - 2..])
  }

  lemma ParsePadded(s: string)
    requires AllDigits(s) && |s| >= 1
    ensures AllDigits(PadStart2(s)) && ParseNat(PadStart2(s)) == ParseNat(s)
  {
    if |s| == 1 {
      ParseNatLeadingZero(s);
    }
  }

  lemma ParseClockJoin(m: string, c: string)
    requires |m| >= 2 && |c| == 2
    ensures ParseClock(m + ":" + c) == ParseFields(m, c)
  {
    var r := m + ":" + c;
    assert r[|r| - 3] == ':';
    assert r[..|r| - 3] == m && r[|r| - 2..] == c;
  }

  /** The display always has a colon before two seconds digits and reads back as the input. */
  lemma FormatTimeRoundTrip(seconds: nat)
    ensures ParseClock(FormatTime(seconds)) == Some(seconds)
  {
    var mins, secs := seconds / 60, seconds % 60;
    var m := PadStart2(NatToString(mins));
    var c := PadStart2(NatToString(secs));
    assert FormatTime(seconds) == m + ":" + c;
    ParsePadded(NatToString(mins));
    ParsePadded(NatToString(secs));
    ParseNatToString(mins);
    ParseNatToString(secs);
    NatToStringTwoDigits(secs);
    ParseClockJoin(m, c);
    assert ParseFields(m, c) == Some(ClockSeconds(mins, secs));
  }

  lemma NatToStringTwoDigits(n: nat)
    ensures n < 100 <==> |NatToString(n)| <= 2
  {
    if n >= 10 {
      NatToStringTwoDigits(n / 10);
    }
  }

  lemma BelowHundredMinutes(seconds: nat)
    ensures seconds < 6000 <==> seconds / 60 < 100
  {
  }

  /** Below 100 minutes the display is exactly `MM:SS`; from 100 minutes on it is longer. */
  lemma FormatTimeLength(seconds: nat)
    ensures seconds < 6000 <==> |FormatTime(seconds)| == 5
  {
    var mins, secs := seconds / 60, seconds % 60;
    BelowHundredMinutes(seconds);
    NatToStringTwoDigits(mins);
    NatToStringTwoDigits(secs);
    var m := PadStart2(NatToString(mins));
    var c := PadStart2(NatToString(secs));
    assert |c| == 2;
    assert |FormatTime(seconds)| == |m| + 3;
  }
}
