/**
 * `StudentProductivityApp` of js/app.js: the pomodoro state, the persisted
 * pomodoro statistics and the todo and assignment lists, changed in place
 * by the handlers.
 */
module Productivity {
  import opened Wrappers
  import opened Seqs
  import opened Clock
  import opened FocusStats
  import opened Pomodoro
  import opened Tasks

  /** The `data-filter` of the todo filter buttons: all todos, or one priority. */
  datatype TodoFilter = AllTodos | OnlyPriority(priority: Priority)

  class StudentProductivityApp {
    var isRunning: bool
    var isPaused: bool
    var currentSession: Phase
    var timeLeft: int
    var workDuration: int
    var breakDuration: int
    var sessionsCompleted: int
    var totalFocusTime: int
    var pomodoroStats: PomodoroStats
    var todos: seq<Task>
    var assignments: seq<Task>
    /** The persisted totals as loaded, before this page's sessions. */
    ghost var loadedSessions: int
    ghost var loadedFocusTime: int

    /** `this.pomodoroState` as a value. */
    function Timer(): TimerState
      reads this
    {
      TimerState(isRunning, isPaused, currentSession, timeLeft, workDuration, breakDuration,
        sessionsCompleted, totalFocusTime)
    }

    /**
     * The stored todos are in the order `updateTodosList` sorts them into,
     * since every redraw of the list sorts `this.data.todos` itself: no todo
     * of a later class before one of an earlier class, which is the same as
     * `todos == SortTodos(todos)` (`Tasks.RankSortedIsSorted`).
     */
    ghost predicate TodosSorted()
      reads this
    {
      RankSorted(todos)
    }

    /**
     * The timer is consistent, the stored todos are sorted, and the persisted
     * totals are those loaded plus the sessions completed on this page.
     */
    ghost predicate Valid()
      reads this
    {
      Consistent(Timer()) && TodosSorted() &&
      pomodoroStats.totalSessions == loadedSessions + sessionsCompleted &&
      pomodoroStats.totalFocusTime == loadedFocusTime + totalFocusTime
    }

    /**
     * The constructor, with what `loadData` read from storage; `init` then
     * draws the dashboard and the todo list, which sorts the stored todos.
     */
    constructor(saved: PomodoroStats, savedTodos: seq<Task>, savedAssignments: seq<Task>)
      ensures Valid()
      ensures Timer() == Fresh
      ensures pomodoroStats == saved && todos == SortTodos(savedTodos) && assignments == savedAssignments
    {
      isRunning := false;
      isPaused := false;
      currentSession := Work;
      timeLeft := 25 * 60;
      workDuration := 25;
      breakDuration := 5;
      sessionsCompleted := 0;
      totalFocusTime := 0;
      pomodoroStats := saved;
      todos := savedTodos;
      assignments := savedAssignments;
      loadedSessions := saved.totalSessions;
      loadedFocusTime := saved.totalFocusTime;
      new;
      LoadDashboard();
      LoadTodos();
    }

    method StartPomodoro()
      requires Valid()
      modifies this
      ensures Valid()
      ensures Timer() == Start(old(Timer()))
      ensures pomodoroStats == old(pomodoroStats) && todos == old(todos) && assignments == old(assignments)
      ensures loadedSessions == old(loadedSessions) && loadedFocusTime == old(loadedFocusTime)
    {
      if !isRunning {
        isRunning := true;
        isPaused := false;
      }
    }

    method PausePomodoro()
      requires Valid()
      modifies this
      ensures Valid()
      ensures Timer() == Pause(old(Timer()))
      ensures pomodoroStats == old(pomodoroStats) && todos == old(todos) && assignments == old(assignments)
      ensures loadedSessions == old(loadedSessions) && loadedFocusTime == old(loadedFocusTime)
    {
      if isRunning {
        isRunning := false;
        isPaused := true;
      }
    }

    method ResetPomodoro()
      requires Valid()
      modifies this
      ensures Valid()
      ensures Timer() == Reset(old(Timer()))
      ensures pomodoroStats == old(pomodoroStats) && todos == old(todos) && assignments == old(assignments)
      ensures loadedSessions == old(loadedSessions) && loadedFocusTime == old(loadedFocusTime)
    {
      isRunning := false;
      isPaused := false;
      if currentSession == Work {
        timeLeft := workDuration * 60;
      } else {
        timeLeft := breakDuration * 60;
      }
    }

    /** `updatePomodoroStats`, with today as a day number. */
    method UpdatePomodoroStats(today: int)
      requires TodosSorted()
      modifies this
      ensures pomodoroStats == AfterSession(old(pomodoroStats), today, workDuration)
      ensures Timer() == old(Timer()) && todos == old(todos) && assignments == old(assignments)
      ensures loadedSessions == old(loadedSessions) && loadedFocusTime == old(loadedFocusTime)
    {
      if pomodoroStats.lastSessionDate != Some(today) {
        pomodoroStats := pomodoroStats.(todaySessions := 0, todayFocusTime := 0);
      }
      pomodoroStats := pomodoroStats.(todaySessions := pomodoroStats.todaySessions + 1);
      pomodoroStats := pomodoroStats.(todayFocusTime := pomodoroStats.todayFocusTime + workDuration);
      pomodoroStats := pomodoroStats.(totalSessions := pomodoroStats.totalSessions + 1);
      pomodoroStats := pomodoroStats.(totalFocusTime := pomodoroStats.totalFocusTime + workDuration);
      pomodoroStats := pomodoroStats.(lastSessionDate := Some(today));
      LoadDashboard();
    }

    /** `finishPomodoroSession`: a work session is also recorded in the persisted statistics. */
    method FinishPomodoroSession(today: int)
      requires Valid() && !isPaused
      modifies this
      ensures Valid()
      ensures Timer() == Finish(old(Timer()))
      ensures pomodoroStats ==
        if old(currentSession) == Work then AfterSession(old(pomodoroStats), today, old(workDuration))
        else old(pomodoroStats)
      ensures todos == old(todos) && assignments == old(assignments)
      ensures loadedSessions == old(loadedSessions) && loadedFocusTime == old(loadedFocusTime)
    {
      ghost var before := Timer();
      isRunning := false;
      if currentSession == Work {
        sessionsCompleted := sessionsCompleted + 1;
        totalFocusTime := totalFocusTime + workDuration;
        UpdatePomodoroStats(today);
        currentSession := Break;
        timeLeft := breakDuration * 60;
      } else {
        currentSession := Work;
        timeLeft := workDuration * 60;
      }
      assert Timer() == Finish(before);
    }

    /** The body of the interval callback, which exists only while the timer runs. */
    method Tick(today: int)
      requires Valid() && isRunning
      modifies this
      ensures Valid()
      ensures Timer() == Pomodoro.Tick(old(Timer()))
      ensures pomodoroStats ==
        if old(timeLeft) - 1 <= 0 && old(currentSession) == Work then
          AfterSession(old(pomodoroStats), today, old(workDuration))
        else old(pomodoroStats)
      ensures todos == old(todos) && assignments == old(assignments)
      ensures loadedSessions == old(loadedSessions) && loadedFocusTime == old(loadedFocusTime)
    {
      timeLeft := timeLeft - 1;
      if timeLeft <= 0 {
        FinishPomodoroSession(today);
      }
    }

    /** The change handler of the work-duration input, with the parsed number of minutes. */
    method SetWorkDuration(minutes: int)
      requires Valid()
      modifies this
      ensures Valid()
      ensures Timer() == Pomodoro.SetWorkDuration(old(Timer()), minutes)
      ensures pomodoroStats == old(pomodoroStats) && todos == old(todos) && assignments == old(assignments)
      ensures loadedSessions == old(loadedSessions) && loadedFocusTime == old(loadedFocusTime)
    {
      workDuration := minutes;
      if currentSession == Work && !isRunning {
        timeLeft := workDuration * 60;
      }
    }

    /** The change handler of the break-duration input. */
    method SetBreakDuration(minutes: int)
      requires Valid()
      modifies this
      ensures Valid()
      ensures Timer() == Pomodoro.SetBreakDuration(old(Timer()), minutes)
      ensures pomodoroStats == old(pomodoroStats) && todos == old(todos) && assignments == old(assignments)
      ensures loadedSessions == old(loadedSessions) && loadedFocusTime == old(loadedFocusTime)
    {
      breakDuration := minutes;
      if currentSession == Break && !isRunning {
        timeLeft := breakDuration * 60;
      }
    }

    /** The text of the timer display. */
    method TimerText() returns (text: string)
      ensures text == FormatClock(timeLeft)
      ensures timeLeft >= 0 ==> ParseClock(text) == Some(timeLeft)
    {
      var minutes := FloorDiv(timeLeft, 60);
      var seconds := JsRem(timeLeft, 60);
      text := PadTwo(IntToString(minutes)) + ":" + PadTwo(IntToString(seconds));
      if timeLeft >= 0 {
        FormatClockRoundTrip(timeLeft);
      }
    }

    /**
     * `loadPomodoroStats`: today's sessions and minutes, zero when the last
     * session was on another day, and the minutes as hours and minutes.
     */
    method LoadPomodoroStats(today: int) returns (sessions: int, focus: int, hours: int, minutes: int)
      ensures (sessions, focus) == TodayView(pomodoroStats, today)
      ensures pomodoroStats.lastSessionDate != Some(today) ==> sessions == 0 && focus == 0
      ensures hours == FloorDiv(focus, 60) && minutes == JsRem(focus, 60)
      ensures focus >= 0 ==> hours * 60 + minutes == focus && 0 <= minutes < 60
    {
      sessions, focus := 0, 0;
      if pomodoroStats.lastSessionDate == Some(today) {
        sessions := pomodoroStats.todaySessions;
        focus := pomodoroStats.todayFocusTime;
      }
      hours := FloorDiv(focus, 60);
      minutes := JsRem(focus, 60);
    }

    /** `loadTodos`: redraws the todo list, re-sorting the stored todos. */
    method LoadTodos()
      modifies this
      ensures todos == SortTodos(old(todos)) && TodosSorted()
      ensures old(TodosSorted()) ==> todos == old(todos)
      ensures Timer() == old(Timer()) && pomodoroStats == old(pomodoroStats) && assignments == old(assignments)
      ensures loadedSessions == old(loadedSessions) && loadedFocusTime == old(loadedFocusTime)
    {
      RankSortedIsSorted(todos);
      var shown := UpdateTodosList(AllTodos);
    }

    /**
     * `loadDashboard`, as far as the modelled state goes: the todo list is
     * drawn unfiltered, which re-sorts the stored todos. The budget, the
     * assignment list and the pomodoro numbers it also draws are display.
     */
    method LoadDashboard()
      modifies this
      ensures todos == SortTodos(old(todos)) && TodosSorted()
      ensures old(TodosSorted()) ==> todos == old(todos)
      ensures Timer() == old(Timer()) && pomodoroStats == old(pomodoroStats) && assignments == old(assignments)
      ensures loadedSessions == old(loadedSessions) && loadedFocusTime == old(loadedFocusTime)
    {
      RankSortedIsSorted(todos);
      var shown := UpdateTodosList(AllTodos);
    }

    /** `completeTodo`: the first todo with the id is completed, then the list is redrawn and re-sorted. */
    method CompleteTodo(id: int)
      requires Valid()
      modifies this
      ensures Valid()
      ensures todos == SortTodos(CompleteById(old(todos), id))
      ensures Timer() == old(Timer()) && pomodoroStats == old(pomodoroStats) && assignments == old(assignments)
      ensures loadedSessions == old(loadedSessions) && loadedFocusTime == old(loadedFocusTime)
    {
      var found := FirstWithId(todos, id);
      if found.Some? {
        var i := found.value;
        todos := todos[i := todos[i].(completed := true)];
        LoadTodos();
        LoadDashboard();
      } else {
        RankSortedIsSorted(todos);
      }
    }

    /** `deleteTodo`, once the user confirms; the list is then redrawn and re-sorted. */
    method DeleteTodo(id: int, confirmed: bool)
      requires Valid()
      modifies this
      ensures Valid()
      ensures todos == if confirmed then SortTodos(RemoveId(old(todos), id)) else old(todos)
      ensures Timer() == old(Timer()) && pomodoroStats == old(pomodoroStats) && assignments == old(assignments)
      ensures loadedSessions == old(loadedSessions) && loadedFocusTime == old(loadedFocusTime)
    {
      if confirmed {
        todos := Filter(OtherId(id), todos);
        LoadTodos();
        LoadDashboard();
      }
    }

    /** `completeAssignment`; redrawing the dashboard re-sorts the todos, which are already sorted. */
    method CompleteAssignment(id: int)
      requires Valid()
      modifies this
      ensures Valid()
      ensures assignments == CompleteById(old(assignments), id)
      ensures Timer() == old(Timer()) && pomodoroStats == old(pomodoroStats) && todos == old(todos)
      ensures loadedSessions == old(loadedSessions) && loadedFocusTime == old(loadedFocusTime)
    {
      var found := FirstWithId(assignments, id);
      if found.Some? {
        var i := found.value;
        assignments := assignments[i := assignments[i].(completed := true)];
        LoadDashboard();
      }
    }

    /** `deleteAssignment`, once the user confirms. */
    method DeleteAssignment(id: int, confirmed: bool)
      requires Valid()
      modifies this
      ensures Valid()
      ensures assignments == if confirmed then RemoveId(old(assignments), id) else old(assignments)
      ensures Timer() == old(Timer()) && pomodoroStats == old(pomodoroStats) && todos == old(todos)
      ensures loadedSessions == old(loadedSessions) && loadedFocusTime == old(loadedFocusTime)
    {
      if confirmed {
        assignments := Filter(OtherId(id), assignments);
        LoadDashboard();
      }
    }

    /**
     * `updateTodosList`: the todos shown, sorted. For all todos the array
     * sorted is the stored one itself, so the stored order changes too.
     */
    method UpdateTodosList(filter: TodoFilter) returns (shown: seq<Task>)
      modifies this
      ensures filter == AllTodos ==> shown == SortTodos(old(todos)) && todos == shown
      ensures filter.OnlyPriority? ==>
        shown == SortTodos(Filter(WithPriority(filter.priority), old(todos))) && todos == old(todos)
      ensures filter == AllTodos ==> TodosSorted()
      ensures multiset(todos) == multiset(old(todos))
      ensures Timer() == old(Timer()) && pomodoroStats == old(pomodoroStats) && assignments == old(assignments)
      ensures loadedSessions == old(loadedSessions) && loadedFocusTime == old(loadedFocusTime)
    {
      if filter == AllTodos {
        SortRankSorted(todos);
        todos := SortTodos(todos);
        shown := todos;
      } else {
        shown := SortTodos(Filter(WithPriority(filter.priority), todos));
      }
    }
  }
}
