# Litera library tracker and student productivity platform — a verified model

This project models two browser front-ends from one repository:

- **The library tracker** (`script.js`), which keeps books in an IndexedDB store.
  - A book is a record with optional fields and an auto-increment key.
  - The book list is the store's query, sorted by a multi-key comparator, then filtered by type and keyword.
  - A statistics panel aggregates the visible books.
  - Other handlers mark a book read today, add and edit books through a validated form, delete books, import and export JSON, and show a daily reminder.
- **The student productivity platform** (`js/app.js`), a class `StudentProductivityApp`.
  - It holds a pomodoro timer that alternates work and break sessions.
  - It keeps persisted pomodoro statistics with a day rollover.
  - It keeps todo and assignment lists, which can be completed and deleted by id; todos are sorted by an ordering comparator.

Parts of the source that change state step by step are modelled imperatively:

- The store is the class `LibraryStore.Library`, a map from key to record plus the key generator. Its methods `MarkAsRead`, `DeleteBook`, `Submit` and `ImportBooks` mirror the handlers. Each one states its full new state.
- The statistics are a method with loops, proved against specification functions.
- The productivity app is the class `Productivity.StudentProductivityApp`, holding the pomodoro fields, the statistics and the two lists.
  - Every method is tied to a pure function of the old state. The timer methods use `Pomodoro`, the statistics `FocusStats`, and the lists `Tasks`.
  - The properties are proved as lemmas about those functions.
  - The interval callback is an explicit `Tick`, callable only while the timer runs.
  - The class invariant `Valid` also keeps the stored todos in sorted order. Every redraw of the todo list sorts the stored array in place, and the constructor and every list handler redraw it.

The pure parts are functions with lemmas: the comparator, the filter and keyword predicates, import cleaning, the reminder gate and the `MM:SS` timer text.

Modules:

- `Wrappers`: `Option`.
- `Text`: ASCII lower-casing, trimming, substring search and JavaScript's string `<`.
- `Seqs`: `Filter` and subsequences.
- `Sorting`: a stable insertion sort that stands in for `Array.prototype.sort`.
- Library modules: `Books`, `LibraryQuery`, `LibraryStats`, `BookImport`, `LibraryStore`, `Reminder`.
- Productivity modules: `Clock`, `FocusStats`, `Pomodoro`, `Tasks`, `Productivity`.

Two points where the model follows the code rather than what one might expect of it:

- A stopped timer should never show more than its session's length, but the code does not guarantee this. The duration handlers (js/app.js:541-555) rebase `timeLeft` only when the timer is not running, and pausing (js/app.js:576-582) keeps `timeLeft`. So shortening the duration while the timer runs and then pausing leaves a longer countdown.
  - `Pomodoro.PausedTimerCanExceedDuration` exhibits the input.
  - `Pomodoro.Consistent` claims the full length only for an idle timer, one that is neither running nor paused.
- "Today" is a string in the library tracker: `readDays` entries and the reminder's last date are compared as text. In the productivity app it is an abstract day number.

## Model

| member | source | states |
|---|---|---|
| Books.Compare | script.js:256-297 | the comparator answers only -1 or 1: it never reports two books equal |
| Books.PrecedesMeaning | script.js:258-296 | what "a sorts before b" means for each key. Title/author: ascending on the lower-cased text, missing = "". Year, rating, page: descending, missing = 0. Read-day count: descending, non-array = 0. Ties, `id` and unknown keys: larger id first |
| Books.PrecedesAsymmetric | script.js:256-297 | the comparator never puts each of two books before the other |
| Books.PrecedesTotal | script.js:256-297 | for distinct ids one of the two books always comes first |
| Books.PrecedesTransitive | script.js:256-297 | the order is transitive for every sort key |
| Books.BookOrderLaws | script.js:256-297 | the comparator is a strict order whatever the key |
| Books.SortBooksCorrect | script.js:256-297 | with unique ids, the sorted list is a permutation of the store's list in which every book precedes every later one, with no id twice |
| Books.SortIgnoresInputOrder | script.js:253-297 | the sorted list does not depend on the order `toArray` returned the books in |
| Books.SortOrderByKey | script.js:258-296 | the sorted list, key by key. Text keys: non-decreasing lower-cased field. Numeric keys and read-day count: non-increasing. Equal keys, `id` and unknown keys: descending id |
| LibraryQuery.QuerySorted | script.js:248-328 | the visible list is sorted under the selected key and has unique ids |
| LibraryQuery.QueryMembers | script.js:301-328 | a book is visible iff it is in the store, passes the type filter and passes the keyword test |
| LibraryQuery.StoreQueryKeepsAll | script.js:248-250 | only `online` and `offline` narrow the store query; every other filter reads all books |
| LibraryQuery.ClientFilterMembers | script.js:301-320 | under a filter applied on the client, a book is shown exactly when it is stored, passes that filter's test and matches the keyword |
| LibraryQuery.HasRatingShowsRated | script.js:308-310 | `has-rating` shows exactly the keyword matches with a rating above 0 |
| LibraryQuery.HasCoverShowsCovered | script.js:311-312 | `has-cover` shows exactly the keyword matches whose cover URL is non-blank once trimmed |
| LibraryQuery.TypeChoicesSelectType | script.js:248-250 | `online` and `offline` show exactly the keyword matches of that `type` |
| LibraryQuery.ReadDayQueriesFilterAll | script.js:301-307 | `has-read-days` and `no-read-days` show the unfiltered list, in its order, filtered by whether a book has a read day |
| LibraryQuery.ReadDayFiltersPartition | script.js:304-307 | `has-read-days` and `no-read-days` split the unfiltered list: their lengths and multisets add up to it, and a book of it is in the first iff it has a read day and in the second iff not |
| LibraryQuery.UnknownFilterShowsAll | script.js:324-326 | an unrecognised filter value shows the same list as `all` |
| LibraryQuery.EmptyKeywordNeedsSomeText | script.js:315-319 | with an empty keyword a book passes iff at least one of title, author, isbn or notes is non-empty |
| LibraryQuery.KeywordCaseInsensitive | script.js:242 | keywords that agree up to ASCII case show the same list; a keyword and its lower-cased form in particular |
| LibraryQuery.QueryIgnoresStoreOrder | script.js:253-328 | the visible list depends only on which books are stored, not on the store's listing order |
| LibraryQuery.RatingTieScenario | script.js:274-282 | two books both rated 4.0 are listed larger id first |
| LibraryStats.ComputeStats | script.js:463-498 | the loops compute the visible count, online and offline counts, total read days, rated count and rating sum, and the date histogram, each equal to its specification function |
| LibraryStats.OfflineIsEverythingElse | script.js:465-466 | offline = total - online counts exactly the books whose type is not "online" |
| LibraryStats.CountDateEffect | script.js:498 | counting one date adds 1 to that date's count only, keeps dates distinct and adds 1 to the sum |
| LibraryStats.CountEntriesEffect | script.js:498 | counting a book's entries adds each string entry's occurrences and ignores the rest |
| LibraryStats.HistogramCorrect | script.js:497-498 | the histogram has distinct dates; each count is how often the date occurs over all visible books; the counts sum to the number of string entries |
| LibraryStats.HistogramSumIsTotalDays | script.js:471-498 | when every entry is a date string, the histogram counts sum to the total read days |
| LibraryStats.AllDateEntriesIsTotal | script.js:471-498 | when every entry is a date string, the string entries number exactly the summed `readDays` lengths |
| LibraryStats.AverageUsesRatedOnly | script.js:474-475 | the rated count and rating sum are those of the books rated above 0 alone |
| LibraryStats.AverageInRange | script.js:474-488 | with ratings at most 5, the rating sum lies between 0 and 5 × the rated count, and is positive when any book is rated |
| LibraryStats.AverageBounded | script.js:488 | an average is shown iff some book is rated, and then it lies in (0, 5] |
| BookImport.Clean | script.js:531-541 | a record results iff the entry is a non-null object. Missing fields become "" / "offline" / [] / 0. An array `readDays` is kept. The id is kept iff it is present and parses |
| BookImport.CleanAll | script.js:531-542 | the cleaned list is no longer than the parsed array, and every record has all fields set |
| BookImport.CleanAllKeepsRecords | script.js:531-542 | the cleaned list holds exactly one record per object entry |
| BookImport.BulkAdd | script.js:545 | adding records keeps the store's keys consistent with the generator, never loses a key and never lowers the generator |
| BookImport.BulkAddCounts | script.js:545 | the store grows by the number of records minus the refused ones |
| BookImport.CleanExportedRecord | script.js:531-541 | cleaning an exported normalised record gives back its id and fields |
| BookImport.ExportAll | script.js:559-561 | export writes one entry per stored book |
| BookImport.ReimportExport | script.js:545 | importing an export of books with fresh, distinct ids below the generator adds exactly those books and refuses none |
| BookImport.ExportImportRestores | script.js:529-561 | clearing the store and importing its own export restores the same store with nothing refused |
| LibraryStore.MarkDay | script.js:183-188 | today is in the result; it is appended iff it was absent, otherwise the list is unchanged |
| LibraryStore.MarkDayIdempotent | script.js:186-192 | marking the same day twice is the same as marking it once |
| LibraryStore.MarkDayKeepsNoRepeats | script.js:186-188 | a duplicate-free `readDays` stays duplicate-free |
| LibraryStore.CheckForm | script.js:721-745 | the form is refused for a blank title, else for a rating outside [0, 5], else accepted with trimmed text fields and parsed numbers defaulting to 0 |
| LibraryStore.AcceptedFormNormalised | script.js:743-774 | an accepted form with a chosen type, given read days, is a fully normalised record |
| LibraryStore.Library.constructor | script.js:2-5 | the store starts empty with the key generator at 1 |
| LibraryStore.Library.MarkAsRead | script.js:178-197 | a missing book changes nothing. Otherwise a non-array `readDays` becomes []; then today is appended and stored, or the book is reported as already marked and nothing changes |
| LibraryStore.Library.DeleteBook | script.js:199-214 | the book is removed iff it exists and the user confirms; nothing else changes |
| LibraryStore.Library.Submit | script.js:721-784 | refused forms change nothing. An add stores the record under the next key with `readDays = []`. An edit of an existing key replaces its fields and keeps its `readDays`. An unparsable or missing id changes nothing |
| LibraryStore.Library.ImportBooks | script.js:529-549 | unparsable input, a non-array, no valid record or a cancel change nothing. A confirmed import clears the books, keeps the generator and bulk-adds the cleaned records |
| Reminder.Step | script.js:594-602 | a due reminder that is shown records today's date and the clock; otherwise the log is unchanged |
| Reminder.RecordedDayBlocks | script.js:594-597 | after a reminder is recorded, no later check on the same day is due |
| Reminder.Run | script.js:582-607 | a sequence of checks shows at most one reminder per check |
| Reminder.SameDayAfterRecordShowsNothing | script.js:594-597 | once today's reminder is logged, any number of checks that day show nothing and change nothing |
| Reminder.AtMostOncePerDay | script.js:582-607 | any number of checks on one day, completing one by one, show at most one reminder |
| Tasks.Rank | js/app.js:470-476 | the comparator's six classes: incomplete before complete, then high, medium, low |
| Tasks.CompareIsRank | js/app.js:470-476 | the comparator's sign is exactly the comparison of the two classes |
| Tasks.SortTodos | js/app.js:471-476 | the sorted todos are a permutation of the input |
| Tasks.SortKeepsClasses | js/app.js:471-476 | sorting keeps the input order within each class (stability) |
| Tasks.SortRankSorted | js/app.js:471-476 | the sorted todos have non-decreasing class |
| Tasks.SortTodosIsClasses | js/app.js:470-476 | the sorted todos equal the reference order: incomplete high, medium, low, then completed high, medium, low, each group in input order |
| Tasks.RankSortedIsSorted | js/app.js:462-476 | todos are unchanged by the sort exactly when no todo of a later class comes before one of an earlier class; this is the form in which the app keeps its sortedness invariant |
| Tasks.SortTodosIdempotent | js/app.js:462-476 | sorting todos that are already sorted changes nothing, so redrawing the list again keeps the stored order |
| Tasks.SortTodosOrder | js/app.js:470-476 | in the sorted list incomplete todos precede completed ones, and within one status the priority weight never increases |
| Tasks.FirstWithId | js/app.js:405 | `find`: the first index holding the id, or none when no element has it |
| Tasks.CompleteById | js/app.js:404-413 | only the first element with the id changes (later ones with the same id are untouched); only its `completed` field changes, and it becomes true; without a match the list is unchanged |
| Tasks.CompleteByIdIdempotent | js/app.js:515-524 | completing the same id twice is the same as once |
| Tasks.RemoveId | js/app.js:526-533 | no element with the id remains, every other element is kept as often as it occurs, and the order is preserved |
| Clock.JsRem | js/app.js:627 | JavaScript `%`: for a non-negative dividend it is the ordinary remainder, below the divisor; for a negative one it lies strictly between minus the divisor and 0, inclusive of 0 |
| Clock.JsRemIsTruncatedRemainder | js/app.js:627 | the dividend is the quotient truncated toward zero times the divisor plus `JsRem`, so the remainder takes the dividend's sign |
| Clock.FloorDiv | js/app.js:626 | `Math.floor(a / d)`: the largest integer whose multiple does not exceed `a` |
| Clock.NatToString | js/app.js:628 | `toString` of a natural number: a non-empty string of decimal digits |
| Clock.PadTwo | js/app.js:628 | `padStart(2, '0')`: a shorter string is left-padded to length 2; a longer one is unchanged |
| Clock.FormatClockRoundTrip | js/app.js:626-628 | for a non-negative time, reading the `MM:SS` text back gives the time |
| Clock.FormatClockWidth | js/app.js:626-628 | below 100 minutes the text is exactly five characters |
| FocusStats.AfterSession | js/app.js:645-654 | the totals grow by one session and its minutes. The day counters restart when the last session was on another day and grow otherwise. The last date becomes today |
| FocusStats.TodayView | js/app.js:661-669 | the day counters are shown only when the last session was today, otherwise zero |
| FocusStats.AfterSessionBounded | js/app.js:645-654 | a session of non-negative length keeps the day counters between 0 and the totals |
| FocusStats.ReplayCounts | js/app.js:641-659 | replaying chronological sessions from the initial stats: the totals count all sessions and minutes, and the day counters those of the last session's day |
| FocusStats.TodayViewCounts | js/app.js:661-669 | for chronological sessions, today's view is the number and minutes of today's sessions |
| Pomodoro.FreshConsistent | js/app.js:8-17 | the initial state is consistent and counts down from a non-negative time |
| Pomodoro.HandlersKeepConsistent | js/app.js:541-623 | every handler keeps the timer consistent (tick only while running, finish from a timer that is not paused) |
| Pomodoro.StartKeepsTime | js/app.js:560-574 | start is a no-op while running; otherwise it sets running, clears paused and changes nothing else |
| Pomodoro.PauseKeepsTime | js/app.js:576-582 | pause acts only while running: it then clears running, sets paused and changes nothing else |
| Pomodoro.ResetRestartsSession | js/app.js:584-596 | reset leaves an idle timer at the current phase's full length, keeps the phase and the session count, and is idempotent |
| Pomodoro.FinishWork | js/app.js:598-612 | finishing work counts one session and its minutes, stops the timer and starts a full break |
| Pomodoro.FinishBreak | js/app.js:613-619 | finishing a break stops the timer and starts a full work session, with the counters unchanged |
| Pomodoro.Countdown | js/app.js:566-570 | while time remains, n ticks lower `timeLeft` by exactly n and change nothing else |
| Pomodoro.SessionEndsOnTime | js/app.js:566-570 | a running session of `timeLeft` seconds is still running one tick before and finishes exactly at `timeLeft` ticks |
| Pomodoro.RunSplit | js/app.js:566-570 | ticking a then b seconds is ticking a + b |
| Pomodoro.FreshWorkSession | js/app.js:560-623 | from the fresh 25/5 state, 1499 ticks are still working, and 1500 finish: break, 300 seconds, one session, 25 minutes |
| Pomodoro.HandlersKeepTimeNonNegative | js/app.js:541-623 | with a duration input that is not negative, every handler keeps both durations and the countdown non-negative |
| Pomodoro.RunKeepsTimeNonNegative | js/app.js:566-570 | any number of ticks from a non-negative countdown leave it non-negative |
| Pomodoro.PausedTimerCanExceedDuration | js/app.js:541-582 | start, one tick, a 10-minute work duration and pause leave a stopped timer showing 1499 seconds, more than its 600-second session |
| Productivity.StudentProductivityApp.constructor | js/app.js:3-33 | the timer starts fresh, with the loaded statistics and assignments; the loaded todos are stored sorted, because `init` draws the todo list |
| Productivity.StudentProductivityApp.StartPomodoro | js/app.js:560-574 | the fields become `Pomodoro.Start` of the old timer; statistics and lists unchanged |
| Productivity.StudentProductivityApp.PausePomodoro | js/app.js:576-582 | the fields become `Pomodoro.Pause` of the old timer; nothing else changes |
| Productivity.StudentProductivityApp.ResetPomodoro | js/app.js:584-596 | the fields become `Pomodoro.Reset` of the old timer; nothing else changes |
| Productivity.StudentProductivityApp.UpdatePomodoroStats | js/app.js:641-659 | the stored statistics become `AfterSession` of the old ones with today and the work duration; redrawing the dashboard leaves the sorted todos as they are |
| Productivity.StudentProductivityApp.FinishPomodoroSession | js/app.js:598-623 | the timer becomes `Pomodoro.Finish` of the old one; the statistics record one session only when work ended; the persisted totals stay the loaded ones plus this page's sessions and minutes |
| Productivity.StudentProductivityApp.Tick | js/app.js:566-570 | one second off the countdown, finishing the session (and recording work) exactly when it reaches 0 or below |
| Productivity.StudentProductivityApp.SetWorkDuration | js/app.js:541-547 | the new work length; `timeLeft` is rebased only in a work session that is not running |
| Productivity.StudentProductivityApp.SetBreakDuration | js/app.js:549-555 | the new break length; `timeLeft` is rebased only in a break that is not running |
| Productivity.StudentProductivityApp.TimerText | js/app.js:625-628 | the displayed `MM:SS` text, which reads back as `timeLeft` when that is non-negative |
| Productivity.StudentProductivityApp.LoadPomodoroStats | js/app.js:661-679 | today's sessions and minutes, zero when the last session was another day; the minutes split into hours and minutes that recombine to them |
| Productivity.StudentProductivityApp.LoadTodos | js/app.js:445-448 | the stored todos become their sorted order, and todos already sorted stay as they are; nothing else changes |
| Productivity.StudentProductivityApp.LoadDashboard | js/app.js:682-687 | drawing the dashboard sorts the stored todos, and todos already sorted stay as they are; nothing else modelled changes |
| Productivity.StudentProductivityApp.CompleteTodo | js/app.js:515-524 | the todos become the sorted `CompleteById` of the old ones, since the redraw re-sorts them; nothing else changes |
| Productivity.StudentProductivityApp.DeleteTodo | js/app.js:526-533 | after confirmation the todos become the sorted list without the id; without it nothing changes |
| Productivity.StudentProductivityApp.CompleteAssignment | js/app.js:404-413 | the assignments become `CompleteById` of the old ones; the dashboard redraw leaves the sorted todos as they are; nothing else changes |
| Productivity.StudentProductivityApp.DeleteAssignment | js/app.js:415-422 | after confirmation the assignments lose every entry with the id; without it nothing changes; the todos stay as they are |
| Productivity.StudentProductivityApp.UpdateTodosList | js/app.js:460-476 | the shown todos are the sorted selection. For `all` the stored list itself is sorted in place, because it is the array being sorted; for a priority the stored list is untouched |

## Left out

- Rendering: the DOM, modals, HTML templates, the activity feed and the theme. These are presentation.
- Chart.js and the timer's progress circle. These are display and floating point.
- Storage: IndexedDB (Dexie) and `localStorage` are in-memory values.
  - The store is a map plus a key generator.
  - An explicit key at or above the generator moves the generator past it, and `clear()` keeps the generator.
  - A record whose key clashes is refused on its own while the others are added.
- I/O and dialogs: `FileReader`, `JSON.parse`, `JSON.stringify`, the download link, `Notification`, `alert` and `confirm`.
  - A parsed file is a value and a confirmation is a boolean parameter.
  - Whether showing the notification succeeds is a boolean of each reminder check.
- Timers and clocks: `setInterval` and `clearInterval` are replaced by the explicit `Tick`. The clock and "today" are parameters.
- Parsing and dates:
  - `parseInt`, `parseFloat` and `Number` are abstracted as `Option` values: a number, or none when the text does not parse.
  - Ratings are `real`, not IEEE doubles.
  - NaN durations after a blank duration input are not modelled.
  - Locale date strings, `toDateString`, and the date order of the chart axis (`split('/')` at script.js:499) are not modelled. The histogram keeps dates in first-seen order.
- Text:
  - `toLowerCase` is ASCII lower-casing; Unicode case folding is not modelled.
  - `trim` removes the ASCII white space (space, tab, line feed, carriage return, vertical tab, form feed) and U+00A0 only. The other characters JavaScript's `trim` removes are kept: U+FEFF, U+1680, U+2000 to U+200A, U+2028, U+2029, U+202F, U+205F and U+3000.
  - String `<` compares characters, not UTF-16 code units.
- Books.SortBooks: `Array.prototype.sort` is modelled as a stable insertion sort on a sequence, not an in-place array sort. With unique ids the comparator is a strict total order, so every correct sort gives the same list.
- Tasks.SortTodos: the same stable insertion sort. The todo comparator has ties, so the result is the stable order that engines implement.
- BookImport.ExportImportRestores: the listing `toArray` returns is a parameter, a key-ascending list of the stored books, not computed from the map.
- Productivity.StudentProductivityApp.constructor, CompleteAssignment and DeleteAssignment: every redraw of the assignment list (js/app.js:345-359) sorts the stored assignments in place by due date. The first such redraw happens in `init` (js/app.js:28, 30), so the loaded assignments are already re-sorted there. The model keeps them in their stored order, because the sort key is a date string parsed by `new Date`.
- Reminder.AtMostOncePerDay and Reminder.Run: each check is taken to complete before the next begins, with the gate and the log write as one step. In the code, the gate is read at once (script.js:584-596), but the log is written only in the `db.books.count()` callback (script.js:597-604). A second check started before that callback runs, such as a second `change` of the reminder time (script.js:801, 577-580), reads the same unwritten log, and checks that overlap in this way can each show a notification on the same day.
- BookImport.Clean: the text fields of an imported entry are taken to be strings or falsy. A truthy non-string, such as `"title": 5`, survives the `||` default, and the list then fails on `.toLowerCase()` (script.js:265, script.js:316). The model has no such record.
- Pomodoro.NonNegativeTime: holds only while both durations are non-negative. A negative value typed into a duration input gives a negative countdown, and NaN from a blank input is not modelled.
- Expenses, the budget and the due-date filters of the assignment list. These are outside the modelled core: floating-point budget arithmetic and date sorting.
- The nested `DOMContentLoaded` wiring and the empty second submit handler. These are event plumbing without logic.
- Pomodoro.Consistent: states the full session length only for an idle timer, since the code does not keep it for a paused one (see `Pomodoro.PausedTimerCanExceedDuration`).
