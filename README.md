# TaskScope core, modelled in Dafny

TaskScope is a desktop task manager. A user keeps tasks with optional due dates and
checklist subtasks, lists them by search text and filter mode, moves cards on a
kanban board, gets desktop reminders near deadlines, and runs a pomodoro timer.
This project models the parts of it that hold logic:

- `models.dfy` (`Models`): the `Task` and `SubTask` rows and their defaults.
- `text.dfy` (`Text`): the Python string operations the core relies on: `strip`
  over Python's whitespace set, `split` on one character, the "strip and drop
  blank lines" clean-up, substring search, ASCII digit strings, `str(n)`,
  `int(s)` and `f"{n:02}"`.
- `task_query.dfy` (`TaskQuery`): `list_tasks` as pure functions. It is a
  WHERE clause (search and mode) followed by the four-key ORDER BY, over a
  snapshot of the rows.
- `task_repo.dfy` (`TaskRepo`): the store as a class. It holds a map of tasks
  and a map of subtasks, both keyed by id, and the two auto-increment counters.
  The create, update, delete and done-flag operations are methods. The listing
  is a function.
- `notification_service.dfy` (`Notifier`): the deadline watcher.
  - `Pass` specifies one `check_deadlines` pass.
  - `Run` specifies a sequence of passes that share one guard set.
  - The class `DeadlineWatcher` owns the `notified` set. Its loop is proved
    against `Pass`.
- `pomodoro.dfy` (`Pomodoro`): the countdown state machine.
  - `Tick`, `Toggle` and `Reset` are spec functions.
  - The time label is kept as what it shows, a time or the end of the
    countdown; `LabelText` gives the text the widget displays.
  - The class `PomodoroWidget` updates its fields as the widget does.
- `task_editor.dfy` (`TaskEditor`): the title check on save and the
  normalisation done by `get_values`.
- `kanban.dfy` (`Kanban`): routing a card to a column by status. It also
  models the drop decision and the board class, whose three column lists
  `add_task` and `clear_all` change.

## Design choices

- Date-times are integer seconds.
- `list_tasks` receives local midnight of the current day as `startOfToday`.
  The "today" and "week" filters are then the half-open intervals
  `[startOfToday, startOfToday + 1 day)` and `[startOfToday, startOfToday + 7 days)`.
- The watcher receives `now`.
- The notification facility is a parameter `fails`, which says which
  notifications it refuses.

The model follows what the code does:

- `create_task` does not reject an empty title
  (taskscope/repositories/task_repo.py:11-12). Only the editor dialog checks
  the title (taskscope/ui/task_editor_dialog.py:82-84).
- `delete_task` issues a bulk `DELETE` (taskscope/repositories/task_repo.py:40).
  This bypasses the relationship cascade declared at
  taskscope/models/task.py:38-41, so subtask rows are left as they are.
- Search reads title and description only (taskscope/repositories/task_repo.py:79).
- `Task` has no status, priority or tags column (taskscope/models/task.py:24-41).

## Model

| member | source | states |
|---|---|---|
| Models.NewTask | taskscope/models/task.py:24-35 | a new task has the given title, description and due date, is not done, and has creation and update time both equal to the creation moment; description defaults to empty and due date to none |
| Models.NewSubTask | taskscope/models/task.py:12-18 | a new subtask is not done and belongs to exactly the given parent task |
| Text.Strip | taskscope/repositories/task_repo.py:12 | `str.strip()`: the result has no whitespace at either end, and it is empty exactly when the input is all whitespace |
| Text.StripIsInfix | taskscope/repositories/task_repo.py:12 | the stripped text is the input with only whitespace removed, and only at the two ends |
| Text.StripIdempotent | taskscope/repositories/task_repo.py:12 | stripping twice is stripping once |
| Text.Split | taskscope/ui/task_editor_dialog.py:93 | `split('\n')` yields at least one part and no part contains the separator |
| Text.JoinSplit | taskscope/ui/task_editor_dialog.py:93 | joining the parts of a split with the separator gives the text back |
| Text.SplitJoin | taskscope/ui/task_editor_dialog.py:93 | splitting a join of separator-free parts gives those parts back |
| Text.Clean | taskscope/ui/task_editor_dialog.py:94 | stripping each line and dropping blank ones yields only non-empty trimmed entries, never more than the lines |
| Text.CleanMembers | taskscope/ui/task_editor_dialog.py:94 | an entry is in the cleaned list exactly when it is non-empty and is some line stripped |
| Text.CleanAppend | taskscope/repositories/task_repo.py:15-18 | cleaning keeps input order: cleaning a concatenation concatenates the cleaned parts |
| Text.CleanSound | taskscope/ui/task_editor_dialog.py:94 | every cleaned entry is non-empty and is some line stripped |
| Text.CleanComplete | taskscope/ui/task_editor_dialog.py:94 | every line that is not blank appears, stripped, in the cleaned list |
| Text.StripClean | taskscope/repositories/task_repo.py:12 | an already trimmed non-empty text is left unchanged by `strip` |
| Text.CleanOfClean | taskscope/ui/task_editor_dialog.py:94 | a list of entries that are already trimmed and non-empty is left unchanged |
| Text.CleanIdempotent | taskscope/ui/task_editor_dialog.py:94 | cleaning twice is cleaning once |
| Text.ParseNat | taskscope/ui/kanban_board.py:77 | `int(s)` on a digit string whose first digit is not 0 is positive |
| Text.NatToString | taskscope/ui/kanban_board.py:44 | `str(n)` is a digit string that parses back to `n`, with a leading zero only for 0 |
| Text.Pad2 | taskscope/ui/pomodoro_widget.py:86 | `f"{n:02}"` is a digit string that parses back to `n`, and has exactly two digits below 100 |
| TaskQuery.Select | taskscope/repositories/task_repo.py:76-93 | the WHERE clause keeps a row exactly when it matches the search and the mode, as often as it occurs, and adds nothing |
| TaskQuery.PrecedesIsTotalPreorder | taskscope/repositories/task_repo.py:95 | the four-key order is total and transitive |
| TaskQuery.Insert | taskscope/repositories/task_repo.py:95 | inserting into a sorted listing keeps it sorted and adds exactly that row |
| TaskQuery.Sort | taskscope/repositories/task_repo.py:95 | the ORDER BY yields a sorted permutation of its input |
| TaskQuery.ListTasks | taskscope/repositories/task_repo.py:73-97 | `list_tasks` is sorted, and holds every selected row exactly as often as the snapshot does and no other row |
| TaskQuery.SortedKeys | taskscope/repositories/task_repo.py:95 | in a listing, undone precede done; with equal done flag, dated precede undated; dated ones ascend by due time; full ties descend by creation time |
| TaskQuery.ListDistinct | taskscope/repositories/task_repo.py:97 | rows with distinct ids are listed without duplicates |
| TaskQuery.ListAllIsPermutation | taskscope/repositories/task_repo.py:73-97 | with the default arguments (empty search, mode "all") every row is listed |
| TaskQuery.SelectAll | taskscope/repositories/task_repo.py:76-93 | an empty search with mode "all" filters nothing |
| TaskQuery.TodayBounds | taskscope/repositories/task_repo.py:81-89 | the "today" window includes the last second of the day and excludes the next midnight; "week" excludes the second before today |
| TaskQuery.SortThree | taskscope/repositories/task_repo.py:95 | sorting three rows puts the one that precedes neither other row last |
| TaskQuery.ExampleOrder | taskscope/repositories/task_repo.py:95 | an undone task due tomorrow, an undone undated task and a done task are listed in that order |
| TaskRepo.NewSubTasksSpec | taskscope/repositories/task_repo.py:15-18 | the new subtasks take consecutive ids from the counter, one per title in order, each not done under the given parent |
| TaskRepo.SkipBlank | taskscope/repositories/task_repo.py:16-17 | a loop turn on a blank entry adds no subtask |
| TaskRepo.AddEntry | taskscope/repositories/task_repo.py:16-18 | a loop turn on any other entry adds its trimmed title under the next id and advances the counter by one |
| TaskRepo.AppendSubTasks | taskscope/repositories/task_repo.py:15-18 | the loop adds exactly the subtasks for the cleaned entries and advances the counter by their number |
| TaskRepo.CreateKeepsConsistent | taskscope/repositories/task_repo.py:11-23 | creating a task under fresh ids keeps every stored id below its counter and every subtask's parent id valid; the new task owns exactly the new subtasks |
| TaskRepo.TaskStore.constructor | taskscope/models/task.py:15-27 | a store over a new database holds no tasks and no subtasks, and both autoincrement id counters start at 1 |
| TaskRepo.TaskStore.CreateTask | taskscope/repositories/task_repo.py:11-23 | stores a new, not-done task with trimmed title and description under a fresh id, plus one trimmed not-done subtask per non-blank entry, in order; nothing else changes |
| TaskRepo.TaskStore.UpdateTask | taskscope/repositories/task_repo.py:25-37 | on a stored id, only title and description (trimmed), due date and update time change; an unknown id changes nothing |
| TaskRepo.TaskStore.DeleteTask | taskscope/repositories/task_repo.py:39-42 | removes exactly that task, if present; other tasks and all subtask rows are unchanged |
| TaskRepo.TaskStore.SetDone | taskscope/repositories/task_repo.py:44-51 | changes only the done flag and update time of that task |
| TaskRepo.TaskStore.SetSubtaskDone | taskscope/repositories/task_repo.py:53-60 | changes only that subtask's done flag; no task changes |
| TaskRepo.TaskStore.GetTask | taskscope/repositories/task_repo.py:62-64 | the stored task with that id, or none exactly when there is none |
| TaskRepo.TaskStore.GetProjects | taskscope/repositories/task_repo.py:67-70 | always the empty list |
| TaskRepo.RowsBelowSound | taskscope/repositories/task_repo.py:74 | every row of the table scan is the stored task under its own id |
| TaskRepo.RowsBelowComplete | taskscope/repositories/task_repo.py:74 | every stored task is a row of the table scan |
| TaskRepo.RowsBelowAscending | taskscope/repositories/task_repo.py:74 | the table scan lists ids in strictly ascending order, so no id twice |
| TaskRepo.TaskStore.Rows | taskscope/repositories/task_repo.py:74 | the rows the query starts from are exactly the stored tasks, each once |
| TaskRepo.TaskStore.ListTasks | taskscope/repositories/task_repo.py:73-97 | every listed task is stored and selected, every stored selected task is listed, the listing is sorted, and no id appears twice |
| Notifier.WindowOf | taskscope/services/notification_service.py:43-52 | "approaching" exactly for 0 < time left <= 15 min, "overdue" exactly for -60 min < time left <= 0, neither otherwise |
| Notifier.MinutesLeft | taskscope/services/notification_service.py:45 | the minute count is `floor(seconds / 60)` and lies in 0..15 |
| Notifier.Notify | taskscope/services/notification_service.py:56-65 | the facility gets the title prefixed with "TaskScope: " and the message as given |
| Notifier.Note | taskscope/services/notification_service.py:43-52 | approaching: the task title and "{m} dakika kaldı!"; overdue: "Süresi Doldu!" and a message naming the task |
| Notifier.Visit | taskscope/services/notification_service.py:38-52 | a task in a window whose id is not yet recorded gets exactly one notification and is recorded; any other task changes nothing |
| Notifier.VisitFresh | taskscope/services/notification_service.py:44-52 | one loop turn sends only an unrecorded id and records exactly what it sends |
| Notifier.PassFresh | taskscope/services/notification_service.py:37-52 | a pass never sends an already recorded id, never sends an id twice, records exactly the ids it sends, and only grows the set |
| Notifier.PassSound | taskscope/services/notification_service.py:32-52 | every notification sent is the note for an open, dated task of the snapshot that lies in a window |
| Notifier.PassComplete | taskscope/services/notification_service.py:37-52 | every open, dated task in a window has its id recorded after the pass |
| Notifier.PassQuiet | taskscope/services/notification_service.py:43-52 | when no task lies in a window, nothing is sent and the set is unchanged |
| Notifier.PassSkipsNotified | taskscope/services/notification_service.py:44-50 | a recorded id never causes another notification |
| Notifier.RunFresh | taskscope/services/notification_service.py:9-52 | over any sequence of passes, the bookkeeping of a single pass holds for the whole run |
| Notifier.AtMostOncePerLifetime | taskscope/services/notification_service.py:9-52 | over a worker's lifetime each task gets at most one notification, so an "approaching" task is never also reported overdue |
| Notifier.Delivered | taskscope/services/notification_service.py:56-65 | the accepted notifications are exactly the sent ones the facility does not refuse |
| Notifier.DeadlineWatcher.constructor | taskscope/services/notification_service.py:9-12 | a new worker has recorded no task id yet |
| Notifier.DeliveredAppend | taskscope/services/notification_service.py:56-65 | whether a notification is delivered depends on it alone, so delivery distributes over the order of sending |
| Notifier.DeadlineWatcher.CheckTask | taskscope/services/notification_service.py:38-52 | one turn of the loop sends and records what `Visit` specifies, and reports as delivered the sent notifications the facility accepts |
| Notifier.DeadlineWatcher.CheckDeadlines | taskscope/services/notification_service.py:28-54 | the loop sends what the pass specifies and updates the set the same way, whichever notifications the facility refuses |
| Pomodoro.Format | taskscope/ui/pomodoro_widget.py:86 | the label `mm:ss` has five characters with a colon in the middle |
| Pomodoro.FormatRoundTrip | taskscope/ui/pomodoro_widget.py:86 | both numbers read back off the label |
| Pomodoro.LabelText | taskscope/ui/pomodoro_widget.py:76-86 | the label reads `mm:ss` for a time and "Bitti!" once finished |
| Pomodoro.LabelTextDistinct | taskscope/ui/pomodoro_widget.py:76-86 | different label states in range never read the same, so the text shows the time left |
| Pomodoro.Initial | taskscope/ui/pomodoro_widget.py:7-9 | a new widget is at 25:00, stopped, offering "Başlat" |
| Pomodoro.InitialValid | taskscope/ui/pomodoro_widget.py:5-27 | the initial state is in range, its label reads "25:00" and shows its time |
| Pomodoro.Tick | taskscope/ui/pomodoro_widget.py:71-86 | before the end, a tick takes exactly one second off (borrowing a minute at m:00) and shows the new time; at 00:00 it stops and shows "Bitti!"; the ranges 0..25 and 0..59 are kept |
| Pomodoro.TickValid | taskscope/ui/pomodoro_widget.py:71-86 | a tick keeps the time in range and a label that shows the time left or the end |
| Pomodoro.Toggle | taskscope/ui/pomodoro_widget.py:59-69 | flips the running flag and the button text; the time and the label are unchanged |
| Pomodoro.Reset | taskscope/ui/pomodoro_widget.py:88-95 | from any state: 25:00, stopped, offering "Başlat" |
| Pomodoro.Countdown | taskscope/ui/pomodoro_widget.py:72-86 | n ticks take exactly min(n, time left) seconds off |
| Pomodoro.CountdownInRange | taskscope/ui/pomodoro_widget.py:72-86 | any number of ticks keeps the ranges |
| Pomodoro.CountdownShows | taskscope/ui/pomodoro_widget.py:72-86 | before the time runs out the timer keeps running, the button keeps its text and the label shows the time left |
| Pomodoro.RunsOut | taskscope/ui/pomodoro_widget.py:72-86 | as many ticks as seconds left reach 00:00, still running |
| Pomodoro.FullSession | taskscope/ui/pomodoro_widget.py:72-86 | from 25:00, 1500 ticks show "00:00" and the next tick stops and shows "Bitti!" |
| Pomodoro.PomodoroWidget.constructor | taskscope/ui/pomodoro_widget.py:5-9 | the widget starts in the initial state |
| Pomodoro.PomodoroWidget.ToggleTimer | taskscope/ui/pomodoro_widget.py:59-69 | the new state is `Toggle` of the old |
| Pomodoro.PomodoroWidget.UpdateTimer | taskscope/ui/pomodoro_widget.py:71-86 | the new state is `Tick` of the old |
| Pomodoro.PomodoroWidget.ResetTimer | taskscope/ui/pomodoro_widget.py:88-95 | the new state is `Reset` of the old |
| TaskEditor.OnSave | taskscope/ui/task_editor_dialog.py:81-85 | save is accepted exactly when the title has a non-whitespace character; otherwise the warning is shown |
| TaskEditor.GetValues | taskscope/ui/task_editor_dialog.py:87-96 | title and description trimmed; due date absent exactly when the box is unchecked; every subtask title non-empty, trimmed, on one line |
| TaskEditor.SubtasksAreLines | taskscope/ui/task_editor_dialog.py:93-94 | the subtasks are, in order, the trimmed non-blank lines and nothing else |
| TaskEditor.SavedTitleIsClean | taskscope/ui/task_editor_dialog.py:81-88 | after an accepted save the returned title is non-empty and trimmed |
| TaskEditor.SubtasksRoundTrip | taskscope/ui/task_editor_dialog.py:93-94 | clean titles written one per line read back unchanged |
| TaskEditor.GetValuesIdempotent | taskscope/ui/task_editor_dialog.py:87-96 | entering the returned values again returns them unchanged |
| TaskEditor.SubtasksEditable | taskscope/ui/task_editor_dialog.py:33-35 | the subtask field is editable exactly when the dialog opens with an empty title |
| Kanban.StatusCode | taskscope/ui/kanban_board.py:92-94 | each column carries one of "todo", "in_progress", "done" |
| Kanban.ColumnFor | taskscope/ui/kanban_board.py:141-145 | "in_progress" and "done" route to their columns; every other status routes to todo |
| Kanban.ColumnForStatusCode | taskscope/ui/kanban_board.py:141-145 | a column's own code routes back to it, and codes are distinct |
| Kanban.Drop | taskscope/ui/kanban_board.py:68-80 | a drop signals exactly when it comes from another column with a digit text; the id is the number the text denotes and the status is the column's code |
| Kanban.NatToStringParse | taskscope/ui/kanban_board.py:77 | `str(int(s))` is `s` without leading zeros |
| Kanban.DragCarriesId | taskscope/ui/kanban_board.py:75-79 | a card dragged from another column delivers exactly its task id with the target's code |
| Kanban.PyIsDigits | taskscope/ui/kanban_board.py:76 | `str.isdigit` rejects the empty text and accepts every ASCII digit string |
| Kanban.DropAsWritten | taskscope/ui/kanban_board.py:68-80 | the drop with its `isdigit` guard ignores non-digit text and same-column drops, signals on decimal text, and ends in an error otherwise |
| Kanban.SuperscriptDropRaises | taskscope/ui/kanban_board.py:76-77 | "²" passes the guard and ends in an error |
| Kanban.DropAgrees | taskscope/ui/kanban_board.py:76-77 | the corrected drop agrees with the code as written wherever that does not end in an error |
| Kanban.KanbanBoard.constructor | taskscope/ui/kanban_board.py:92-94 | a new board has three empty columns |
| Kanban.KanbanBoard.ClearAll | taskscope/ui/kanban_board.py:130-134 | all three columns become empty |
| Kanban.KanbanBoard.AddTask | taskscope/ui/kanban_board.py:136-148 | the card is appended to the routed column only; the other two are unchanged |

## Findings

| source | as written | input that shows it | evidently intended | confidence | as-written member | corrected member |
|---|---|---|---|---|---|---|
| taskscope/ui/kanban_board.py:76-77 | `isdigit()` guards `int()`, but `isdigit` also accepts superscript and subscript digits, which `int()` rejects with `ValueError` (modelled by Kanban.DropAsWritten) | a text drop of "²" from another application (`dragEnterEvent` accepts any source other than the column itself) | a guard that accepts only ASCII digit strings, the form `str(task_id)` puts on the drag (taskscope/ui/kanban_board.py:44) | medium, not executed | Kanban.SuperscriptDropRaises | Kanban.Drop |

## Left out

- TaskQuery.Select, TaskQuery.ListTasks, TaskRepo.TaskStore.ListTasks: SQL `LIKE` is ASCII-case-insensitive and treats `%` and `_` as wildcards. `TaskQuery.MatchesSearch` models search as plain, case-sensitive substring containment.
- TaskQuery.ListTasks: the database leaves the order of rows equal on all four keys unspecified. The model sorts by one deterministic insertion sort, and the lemmas state only sortedness, permutation and the four keys.
- TaskRepo.TaskStore.CreateTask, TaskRepo.CreateKeepsConsistent: ids come from counters that never reuse a value. `tasks.id` is an `INTEGER` primary key without `AUTOINCREMENT` (taskscope/models/task.py:27), so SQLite hands the id of a deleted newest task to the next task created. Because the bulk delete leaves the old task's subtask rows in place (taskscope/repositories/task_repo.py:40), the joined relationship (taskscope/models/task.py:39-41) then loads them as subtasks of the new task, on `refresh` (taskscope/repositories/task_repo.py:22) and in every listing. For example: create task A with subtask "x", delete A, create task B; B shows "x". The model's promises that the new task owns exactly the new subtasks and that every subtask's parent id lies below the task counter therefore hold in the model but not in the program after such a delete.
- TaskRepo.TaskStore.DeleteTask: the foreign key of `subtasks.task_id` (taskscope/models/task.py:16) has no `ON DELETE` action, so the database never removes subtask rows itself. The engine setup (taskscope/db/database.py:31-38) does not turn foreign-key enforcement on, so the `DELETE` succeeds and the subtask rows stay, as the model keeps them. With enforcement on, the `DELETE` would fail instead; that configuration is not modelled.
- The `String(200)` column length is not modelled. SQLite does not enforce it.
- `created_at`/`updated_at` use `utcnow` while the filters and the watcher use local `now`. All times are one integer clock here, so the offset between them is not modelled.
- Models.NewTask: `created_at` and `updated_at` come from two separate `datetime.utcnow` calls (taskscope/models/task.py:34-35), so in the program they usually differ by microseconds. The model sets both to the one creation moment.
- Times are whole seconds. With microseconds, a task due in under a second is reported as "0 dakika kaldı!". In the model the smallest approaching time is one second, which is also reported as 0 minutes.
- Text.IsSpace lists Python's whitespace characters. Other Unicode behaviour of `str` is not modelled.
- Kanban.DropAsWritten, Kanban.PyIsDigits, Kanban.PyIsDigit: `isdigit` is modelled over the ASCII, superscript and subscript digits only. The decimal digits of other scripts, which both `isdigit` and `int()` accept, come out `Ignored` in the model where the program emits a signal. Other characters that `isdigit` accepts and `int()` rejects, such as the circled digits ①–⑨ (U+2460–U+2468), come out `Ignored` in the model where the program raises.
- `NotificationWorker.run` and `stop` are not modelled: the sleep loop, the `running` flag and waiting for the thread are concurrency and timing. The `plyer` call is a foreign library and appears only as the `fails` parameter.
- Database sessions, commit, refresh and `database.py` are not part of this model.
- Qt mechanics are not modelled: timers, styles, drag pixmaps, MIME transport, message boxes, the date-time editor's conversion, and `startDrag` beyond the `str(task_id)` it puts on the drag.
- `KanbanBoard.get_column_by_status` is unused by the board and returns no usable column. It is not modelled.
- Kanban.KanbanBoard.AddTask: `add_task` reads `task.status`, a field this revision's `Task` does not have. The model takes the status string as a parameter.
- The main window, task card, statistics widget, themes and `main.py` are presentation code. They call APIs that this revision does not define, and they are not modelled.
