/**
 * The persisted pomodoro statistics of js/app.js (`this.data.pomodoroStats`):
 * totals, the counters for the current day, and the "today" figures the
 * dashboard reads back. Days are abstract numbers that grow with time.
 */
module FocusStats {
  import opened Wrappers

  datatype PomodoroStats = PomodoroStats(
    totalSessions: int,
    totalFocusTime: int,
    todaySessions: int,
    todayFocusTime: int,
    lastSessionDate: Option<int>)

  /** The defaults of `loadData`. */
  const InitialStats := PomodoroStats(0, 0, 0, 0, None)

  /**
   * `updatePomodoroStats`: the day's counters restart when the last session
   * was on another day; the totals always grow by one session and its minutes.
   */
  function AfterSession(st: PomodoroStats, today: int, minutes: int): (r: PomodoroStats)
    ensures r.totalSessions == st.totalSessions + 1
    ensures r.totalFocusTime == st.totalFocusTime + minutes
    ensures r.lastSessionDate == Some(today)
    ensures st.lastSessionDate == Some(today) ==>
      r.todaySessions == st.todaySessions + 1 && r.todayFocusTime == st.todayFocusTime + minutes
    ensures st.lastSessionDate != Some(today) ==>
      r.todaySessions == 1 && r.todayFocusTime == minutes
  {
    var base := if st.lastSessionDate != Some(today) then st.(todaySessions := 0, todayFocusTime := 0) else st;
    base.(todaySessions := base.todaySessions + 1,
          todayFocusTime := base.todayFocusTime + minutes,
          totalSessions := base.totalSessions + 1,
          totalFocusTime := base.totalFocusTime + minutes,
          lastSessionDate := Some(today))
  }

  /** `loadPomodoroStats`: the day's counters count only when they belong to today. */
  function TodayView(st: PomodoroStats, today: int): (r: (int, int))
    ensures st.lastSessionDate == Some(today) ==> r == (st.todaySessions, st.todayFocusTime)
    ensures st.lastSessionDate != Some(today) ==> r == (0, 0)
  {
    if st.lastSessionDate == Some(today) then (st.todaySessions, st.todayFocusTime) else (0, 0)
  }

  /** The day's counters never exceed the totals, for sessions of no negative length. */
  ghost predicate Bounded(st: PomodoroStats) {
    0 <= st.todaySessions <= st.totalSessions && 0 <= st.todayFocusTime <= st.totalFocusTime
  }

  lemma AfterSessionBounded(st: PomodoroStats, today: int, minutes: int)
    requires Bounded(st) && minutes >= 0
    ensures Bounded(AfterSession(st, today, minutes))
  {
  }

  /** A completed work session: its day and its length in minutes. */
  datatype Session = Session(day: int, minutes: int)

  /** The statistics after a series of sessions, oldest first. */
  function Replay(st: PomodoroStats, s: seq<Session>): PomodoroStats
    decreases |s|
  {
    if s == [] then st
    else
      var last := s[|s| - 1];
      AfterSession(Replay(st, s[..|s| - 1]), last.day, last.minutes)
  }

  function SessionsOn(s: seq<Session>, day: int): nat
    decreases |s|
  {
    if s == [] then 0 else SessionsOn(s[..|s| - 1], day) + (if s[|s| - 1].day == day then 1 else 0)
  }

  function MinutesOn(s: seq<Session>, day: int): int
    decreases |s|
  {
    if s == [] then 0 else MinutesOn(s[..|s| - 1], day) + (if s[|s| - 1].day == day then s[|s| - 1].minutes else 0)
  }

  function TotalMinutes(s: seq<Session>): int
    decreases |s|
  {
    if s == [] then 0 else TotalMinutes(s[..|s| - 1]) + s[|s| - 1].minutes
  }

  /** Days never go back. */
  ghost predicate Chronological(s: seq<Session>) {
    forall i, j :: 0 <= i < j < |s| ==> s[i].day <= s[j].day
  }

  /** A day after every session has none of them. */
  lemma {:induction false} NothingOnLaterDay(s: seq<Session>, day: int)
    requires forall i :: 0 <= i < |s| ==> s[i].day < day
    ensures SessionsOn(s, day) == 0 && MinutesOn(s, day) == 0
    decreases |s|
  {
    if s != [] {
      NothingOnLaterDay(s[..|s| - 1], day);
    }
  }

  /**
   * From the defaults, a chronological series of sessions leaves the totals
   * of the whole series, and the day's counters of the last day it touched.
   */
  lemma {:induction false} ReplayCounts(s: seq<Session>)
    requires Chronological(s)
    ensures var st := Replay(InitialStats, s);
      st.totalSessions == |s| && st.totalFocusTime == TotalMinutes(s) &&
      (s == [] ==> st.lastSessionDate == None) &&
      (s != [] ==> var d := s[|s| - 1].day;
        st.lastSessionDate == Some(d) && st.todaySessions == SessionsOn(s, d) &&
        st.todayFocusTime == MinutesOn(s, d))
    decreases |s|
  {
    if s != [] {
      var p := s[..|s| - 1];
      var d := s[|s| - 1].day;
      assert Chronological(p);
      ReplayCounts(p);
      if p != [] && p[|p| - 1].day != d {
        assert forall i :: 0 <= i < |p| ==> p[i].day < d by {
          forall i | 0 <= i < |p| ensures p[i].day < d {
            assert p[i].day <= p[|p| - 1].day;
          }
        }
        NothingOnLaterDay(p, d);
      }
    }
  }

  /**
   * What the dashboard shows on a day no earlier than any session: the
   * sessions and minutes of that very day, and nothing once the day has moved on.
   */
  lemma TodayViewCounts(s: seq<Session>, today: int)
    requires Chronological(s)
    requires forall i :: 0 <= i < |s| ==> s[i].day <= today
    ensures TodayView(Replay(InitialStats, s), today) == (SessionsOn(s, today), MinutesOn(s, today))
  {
    ReplayCounts(s);
    if s != [] && s[|s| - 1].day != today {
      assert forall i :: 0 <= i < |s| ==> s[i].day < today by {
        forall i | 0 <= i < |s| ensures s[i].day < today {
          assert s[i].day <= s[|s| - 1].day;
        }
      }
      NothingOnLaterDay(s, today);
    }
  }
}
