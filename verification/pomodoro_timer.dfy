/** The pomodoro timer card: its MM:SS display, the session dots and label, and
    which store action each button dispatches. */
module PomodoroTimer {
  import opened Wrappers
  import opened Text
  import opened PomodoroStore

  /** `formatTime`: floored minutes and the `%` remainder, each padded to two characters. */
  function FormatTime(seconds: int): string
  {
    Pad2(seconds / 60) + ":" + Pad2(JsRem(seconds, 60))
  }

  /** Below 100 minutes the display is exactly "MM:SS". */
  lemma FormatTimeShape(seconds: int)
    requires 0 <= seconds < 6000
    ensures |FormatTime(seconds)| == 5 && FormatTime(seconds)[2] == ':'
    ensures AllDigits(FormatTime(seconds)[..2]) && AllDigits(FormatTime(seconds)[3..])
  {
    Pad2Field(seconds / 60);
    Pad2Field(seconds % 60);
    var s := FormatTime(seconds);
    assert s[..2] == Pad2(seconds / 60);
    assert s[3..] == Pad2(seconds % 60);
  }

  /** The display of any non-negative time reads back as that time, however many minutes it shows. */
  lemma FormatTimeReadsBack(seconds: int)
    requires seconds >= 0
    ensures ParseClock(FormatTime(seconds)) == Some(seconds)
  {
    Pad2Reads(seconds / 60);
    TwoDigitField(seconds % 60);
    ParseJoined2(Pad2(seconds / 60), Pad2(seconds % 60), seconds / 60, seconds % 60);
  }

  /** The seconds field never reaches 60. */
  lemma SecondsFieldBelow60(seconds: int)
    requires seconds >= 0
    ensures var s := FormatTime(seconds);
      |s| >= 2 && AllDigits(s[|s| - 2..]) && ParseDigits(s[|s| - 2..]) < 60
  {
    Pad2Field(seconds % 60);
    var s := FormatTime(seconds);
    assert s[|s| - 2..] == Pad2(seconds % 60);
  }

  /** The filled share of the ring, in percent. Both modes divide by the work interval; a work duration of 0
      divides by zero (`NaN` or an infinity in JavaScript), shown here as `None`. */
  function RingPercent(s: PomodoroState): (p: Option<real>)
    ensures p.None? <==> s.workDuration == 0
    ensures s.workDuration > 0 && s.mode == Work && 0 <= s.timeRemaining <= s.workDuration * 60 ==>
      0.0 <= p.value <= 100.0
    ensures s.workDuration != 0 && s.mode == Work && s.timeRemaining == s.workDuration * 60 ==> p == Some(0.0)
    ensures s.workDuration != 0 && s.timeRemaining == 0 ==> p == Some(100.0)
    ensures p.Some? ==> p.value * (s.workDuration * 60) as real == ((s.workDuration * 60) as real - s.timeRemaining as real) * 100.0
  {
    if s.workDuration == 0 then None
    else
      var total := (s.workDuration * 60) as real;
      var left := s.timeRemaining as real;
      assert total / total == 1.0;
      ElapsedShare(total, left);
      if s.mode == Work then Some(((total - left) / total) * 100.0) else Some(100.0 - (left / total) * 100.0)
  }

  /** A break ring is measured against the work interval: a fresh break shows an empty ring only when it is as
      long as a work interval, and a break longer than that starts below zero. */
  lemma BreakRingUsesWorkDuration(s: PomodoroState)
    requires s.mode == Break && s.workDuration > 0 && s.timeRemaining == s.breakDuration * 60
    ensures RingPercent(s) == Some(0.0) <==> s.breakDuration == s.workDuration
    ensures s.breakDuration > s.workDuration ==> RingPercent(s).value < 0.0
  {
    var total := (s.workDuration * 60) as real;
    var left := (s.breakDuration * 60) as real;
    assert RingPercent(s) == Some(100.0 - (left / total) * 100.0);
    RatioAgainstOne(left, total);
    assert left == total <==> s.breakDuration == s.workDuration;
    assert left > total <==> s.breakDuration > s.workDuration;
  }

  /** Both ring formulas scale back to the elapsed part of the interval, in percent. */
  lemma ElapsedShare(t: real, x: real)
    requires t != 0.0
    ensures ((t - x) / t) * 100.0 * t == (t - x) * 100.0
    ensures (100.0 - (x / t) * 100.0) * t == (t - x) * 100.0
  {
    var q := x / t;
    assert q * t == x;
    var e := (t - x) / t;
    assert e * t == t - x;
    assert (100.0 - q * 100.0) * t == 100.0 * t - 100.0 * (q * t);
    assert e * 100.0 * t == (e * t) * 100.0;
  }

  /** A quotient compared with 1 orders its numerator against its denominator. */
  lemma RatioAgainstOne(x: real, t: real)
    requires t > 0.0
    ensures x / t == 1.0 <==> x == t
    ensures x / t > 1.0 <==> x > t
  {
    var q := x / t;
    assert q * t == x;
    assert q * t - t == (q - 1.0) * t;
  }

  /** Dot `i` of the four is filled when `i` is below the completed count modulo 4. */
  predicate DotFilled(i: int, completedSessions: int) {
    i < JsRem(completedSessions, 4)
  }

  /** The dots are hard-wired to cycles of four: they are all empty exactly when the count is a multiple of 4,
      which matches the long-break rule only when `sessionsUntilLongBreak` is 4. A negative stored count has a
      remainder of at most 0 under JavaScript's `%`, so it empties every dot whether or not 4 divides it. */
  lemma DotsEmptyIff(completedSessions: int)
    ensures (forall i :: 0 <= i < 4 ==> !DotFilled(i, completedSessions)) <==> completedSessions < 0 || DividesJs(completedSessions, 4)
  {
    if completedSessions >= 0 && !DividesJs(completedSessions, 4) {
      assert DotFilled(0, completedSessions);
    }
  }

  /** With a long break every 2 sessions, the second session earns a long break while two dots still show. */
  lemma DotsIgnoreLongBreakSetting(s: PomodoroState, disk: Disk)
    requires s.mode == Work && s.isRunning && s.timeRemaining <= 1
    requires s.completedSessions == 1 && s.sessionsUntilLongBreak == 2
    ensures Tick(s, disk).state.timeRemaining == s.longBreakDuration * 60
    ensures DotFilled(1, Tick(s, disk).state.completedSessions)
  {
  }

  /** "Session n": the session in progress is one past the completed count, printed as a JavaScript number,
      so a negative stored count shows "Session 0" or a minus sign. */
  function SessionLabel(completedSessions: int): (s: string)
    ensures |s| > 8 && s[..8] == "Session "
    ensures completedSessions >= -1 ==> AllDigits(s[8..]) && ParseDigits(s[8..]) == completedSessions + 1
    ensures completedSessions == -1 ==> s == "Session 0"
    ensures completedSessions < -1 ==>
      |s| > 9 && s[8] == '-' && AllDigits(s[9..]) && ParseDigits(s[9..]) == -(completedSessions + 1)
  {
    var n := completedSessions + 1;
    if n >= 0 then
      ParseNatToString(n);
      "Session " + IntToString(n)
    else
      ParseNatToString(-n);
      var digits := NatToString(-n);
      assert ("Session " + ("-" + digits))[9..] == digits;
      "Session " + IntToString(n)
  }

  /** The large button: pause while running, start otherwise. */
  function MainButton(s: PomodoroState): (r: PomodoroState)
    ensures r.isRunning == !s.isRunning
    ensures r.mode == s.mode && r.timeRemaining == s.timeRemaining && r.completedSessions == s.completedSessions
    ensures s.isRunning ==> r == Pause(s)
    ensures !s.isRunning ==> r == Start(s)
    ensures SameSettings(s, r)
  {
    if s.isRunning then Pause(s) else Start(s)
  }

  /** Pressing the large button twice returns to the same state. */
  lemma MainButtonTwice(s: PomodoroState)
    ensures MainButton(MainButton(s)) == s
  {
  }

  /** The skip button: `skipToBreak` in work mode, `skipToWork` in break mode; the mode always changes. */
  function SkipButton(s: PomodoroState, disk: Disk): (r: Effect)
    ensures r.state.mode != s.mode
    ensures s.mode == Work ==> r == SkipToBreak(s, disk)
    ensures s.mode == Break ==> r == Effect(SkipToWork(s), disk)
  {
    if s.mode == Work then SkipToBreak(s, disk) else Effect(SkipToWork(s), disk)
  }

  /** Skipping twice from work counts one session and lands on a full work interval. */
  lemma SkipTwiceFromWork(s: PomodoroState, disk: Disk)
    requires s.mode == Work
    ensures var r := SkipButton(SkipButton(s, disk).state, SkipButton(s, disk).disk);
      r.state.mode == Work && r.state.completedSessions == s.completedSessions + 1
      && r.state.timeRemaining == s.workDuration * 60
  {
  }
}
