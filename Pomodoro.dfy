/**
 * `this.pomodoroState` of js/app.js as a value, and every handler that
 * changes it as a function of the old value. The interval callback is the
 * explicit `Tick`, enabled only while the timer runs.
 */
module Pomodoro {

  datatype Phase = Work | Break

  datatype TimerState = TimerState(
    isRunning: bool,
    isPaused: bool,
    currentSession: Phase,
    timeLeft: int,
    workDuration: int,
    breakDuration: int,
    sessionsCompleted: int,
    totalFocusTime: int)

  /** The state the constructor sets up: a 25-minute work session, 5-minute breaks. */
  const Fresh := TimerState(false, false, Work, 25 * 60, 25, 5, 0, 0)

  /** The full length in seconds of a session of the given phase. */
  function PhaseSeconds(t: TimerState, p: Phase): int {
    (if p == Work then t.workDuration else t.breakDuration) * 60
  }

  predicate Idle(t: TimerState) {
    !t.isRunning && !t.isPaused
  }

  /**
   * A running timer is not paused, and an idle one (neither running nor
   * paused) shows the full length of its session.
   */
  predicate Consistent(t: TimerState) {
    (t.isRunning ==> !t.isPaused) &&
    (Idle(t) ==> t.timeLeft == PhaseSeconds(t, t.currentSession))
  }

  /**
   * The countdown is never negative, and neither duration is: a finished
   * session restarts the countdown from a duration, so durations that are
   * not negative keep it so.
   */
  predicate NonNegativeTime(t: TimerState) {
    t.workDuration >= 0 && t.breakDuration >= 0 && t.timeLeft >= 0
  }

  /** `startPomodoro`. */
  function Start(t: TimerState): TimerState {
    if t.isRunning then t else t.(isRunning := true, isPaused := false)
  }

  /** `pausePomodoro`. */
  function Pause(t: TimerState): TimerState {
    if t.isRunning then t.(isRunning := false, isPaused := true) else t
  }

  /** `resetPomodoro`. */
  function Reset(t: TimerState): TimerState {
    t.(isRunning := false, isPaused := false, timeLeft := PhaseSeconds(t, t.currentSession))
  }

  /** `finishPomodoroSession`, as far as the timer is concerned. */
  function Finish(t: TimerState): TimerState {
    var stopped := t.(isRunning := false);
    if t.currentSession == Work then
      stopped.(sessionsCompleted := t.sessionsCompleted + 1,
               totalFocusTime := t.totalFocusTime + t.workDuration,
               currentSession := Break,
               timeLeft := t.breakDuration * 60)
    else
      stopped.(currentSession := Work, timeLeft := t.workDuration * 60)
  }

  /** The interval callback: one second less, and the session ends at zero or below. */
  function Tick(t: TimerState): TimerState
    requires t.isRunning
  {
    var next := t.(timeLeft := t.timeLeft - 1);
    if next.timeLeft <= 0 then Finish(next) else next
  }

  /** The work-duration input: an idle or paused work session shows the new length at once. */
  function SetWorkDuration(t: TimerState, minutes: int): TimerState {
    var u := t.(workDuration := minutes);
    if u.currentSession == Work && !u.isRunning then u.(timeLeft := minutes * 60) else u
  }

  /** The break-duration input, likewise for a break. */
  function SetBreakDuration(t: TimerState, minutes: int): TimerState {
    var u := t.(breakDuration := minutes);
    if u.currentSession == Break && !u.isRunning then u.(timeLeft := minutes * 60) else u
  }

  /** `n` seconds of a timer left running; the interval stops when the session ends. */
  function Run(t: TimerState, n: nat): TimerState
    decreases n
  {
    if n == 0 || !t.isRunning then t else Run(Tick(t), n - 1)
  }

  lemma FreshConsistent()
    ensures Consistent(Fresh) && NonNegativeTime(Fresh)
  {
  }

  /** Every handler keeps the timer consistent. */
  lemma HandlersKeepConsistent(t: TimerState, minutes: int)
    requires Consistent(t)
    ensures Consistent(Start(t)) && Consistent(Pause(t)) && Consistent(Reset(t))
    ensures t.isRunning ==> Consistent(Tick(t))
    ensures Consistent(SetWorkDuration(t, minutes)) && Consistent(SetBreakDuration(t, minutes))
    ensures !t.isPaused ==> Consistent(Finish(t))
  {
  }

  /** Start does nothing while running; otherwise it runs the timer from where it stands. */
  lemma StartKeepsTime(t: TimerState)
    ensures t.isRunning ==> Start(t) == t
    ensures !t.isRunning ==> Start(t).isRunning && !Start(t).isPaused && Start(t).timeLeft == t.timeLeft
    ensures Start(t).(isRunning := t.isRunning, isPaused := t.isPaused) == t
  {
  }

  /** Pause acts only on a running timer and keeps the time left. */
  lemma PauseKeepsTime(t: TimerState)
    ensures !t.isRunning ==> Pause(t) == t
    ensures t.isRunning ==> !Pause(t).isRunning && Pause(t).isPaused
    ensures Pause(t).timeLeft == t.timeLeft
    ensures Pause(t).(isRunning := t.isRunning, isPaused := t.isPaused) == t
  {
  }

  /** Reset stops the timer at the full length of the current session and keeps the session and its count. */
  lemma ResetRestartsSession(t: TimerState)
    ensures Idle(Reset(t)) && Reset(t).timeLeft == PhaseSeconds(t, t.currentSession)
    ensures Reset(t).currentSession == t.currentSession && Reset(t).sessionsCompleted == t.sessionsCompleted
    ensures Reset(Reset(t)) == Reset(t)
  {
  }

  /** A finished work session counts once, adds its minutes, and hands over to a full break. */
  lemma FinishWork(t: TimerState)
    requires t.currentSession == Work
    ensures var f := Finish(t);
      f.sessionsCompleted == t.sessionsCompleted + 1 &&
      f.totalFocusTime == t.totalFocusTime + t.workDuration &&
      f.currentSession == Break && f.timeLeft == t.breakDuration * 60 && !f.isRunning
  {
  }

  /** A finished break hands over to a full work session and counts nothing. */
  lemma FinishBreak(t: TimerState)
    requires t.currentSession == Break
    ensures var f := Finish(t);
      f.currentSession == Work && f.timeLeft == t.workDuration * 60 && !f.isRunning &&
      f.sessionsCompleted == t.sessionsCompleted && f.totalFocusTime == t.totalFocusTime
  {
  }

  /** Before the last second, each tick takes exactly one second off and changes nothing else. */
  lemma {:induction false} Countdown(t: TimerState, n: nat)
    requires t.isRunning && n < t.timeLeft
    ensures Run(t, n) == t.(timeLeft := t.timeLeft - n)
    decreases n
  {
    if n > 0 {
      Countdown(Tick(t), n - 1);
    }
  }

  /** A running session ends exactly on its last second. */
  lemma {:induction false} SessionEndsOnTime(t: TimerState)
    requires t.isRunning && t.timeLeft >= 1
    ensures Run(t, t.timeLeft - 1).isRunning
    ensures Run(t, t.timeLeft) == Finish(t.(timeLeft := 0))
  {
    Countdown(t, t.timeLeft - 1);
    var last := t.(timeLeft := 1);
    assert Run(t, t.timeLeft - 1) == last;
    RunSplit(t, t.timeLeft - 1, 1);
  }

  /** Running `a` seconds and then `b` more is running `a + b` seconds. */
  lemma {:induction false} RunSplit(t: TimerState, a: nat, b: nat)
    ensures Run(Run(t, a), b) == Run(t, a + b)
    decreases a
  {
    if a > 0 && t.isRunning {
      RunSplit(Tick(t), a - 1, b);
    } else if a > 0 {
      assert Run(t, a) == t;
    }
  }

  /** From the fresh 25/5 state, 1500 seconds finish the work session and start a full break. */
  lemma FreshWorkSession()
    ensures Run(Start(Fresh), 1499).isRunning && Run(Start(Fresh), 1499).currentSession == Work
    ensures Run(Start(Fresh), 1500) ==
      TimerState(false, false, Break, 300, 25, 5, 1, 25)
  {
    SessionEndsOnTime(Start(Fresh));
    Countdown(Start(Fresh), 1499);
  }

  /**
   * A stopped timer can show more than its session's length: shortening the
   * work duration while the timer runs leaves `timeLeft` alone, and pausing
   * then stops it with the old, longer countdown.
   */
  lemma PausedTimerCanExceedDuration()
    ensures var t := Pause(SetWorkDuration(Tick(Start(Fresh)), 10));
      !t.isRunning && t.currentSession == Work && t.timeLeft == 1499 &&
      t.timeLeft > PhaseSeconds(t, t.currentSession)
  {
  }

  /** Every handler keeps the countdown non-negative, given a duration input that is not negative. */
  lemma HandlersKeepTimeNonNegative(t: TimerState, minutes: int)
    requires NonNegativeTime(t) && minutes >= 0
    ensures NonNegativeTime(Start(t)) && NonNegativeTime(Pause(t)) && NonNegativeTime(Reset(t))
    ensures NonNegativeTime(Finish(t))
    ensures t.isRunning ==> NonNegativeTime(Tick(t))
    ensures NonNegativeTime(SetWorkDuration(t, minutes)) && NonNegativeTime(SetBreakDuration(t, minutes))
  {
  }

  /** Any number of ticks from a non-negative countdown leaves it non-negative. */
  lemma {:induction false} RunKeepsTimeNonNegative(t: TimerState, n: nat)
    requires NonNegativeTime(t)
    ensures NonNegativeTime(Run(t, n))
    decreases n
  {
    if n > 0 && t.isRunning {
      HandlersKeepTimeNonNegative(t, 0);
      RunKeepsTimeNonNegative(Tick(t), n - 1);
    }
  }
}
