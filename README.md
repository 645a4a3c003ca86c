# TodoApp task-list state manager, in Dafny

This project models the state manager inside the `TodoApp` class of a
single-page to-do list (`js/script.js`). The class keeps an ordered list of
task records `{id, text, dueDate, status, createdAt}`, the active filter
string, the edit session (`isEditMode`, `editingTaskId`) and a snapshot of
the list in a simulated local storage (the global `window.todoTasksData`).
On that state it adds tasks, deletes one or all, toggles a task between
pending and completed, edits a task inline, projects the list through the
filter, and decides for each row whether it is overdue and which status
badge it shows.

Layout:

- `wrappers.dfy` — `Option`, for the nullable fields.
- `text.dfy` — module `Text`: JavaScript's `String.prototype.trim` over the
  ECMAScript whitespace and line-terminator code points, with its
  characterisation (a clean piece between whitespace-only ends, unique,
  idempotent, empty exactly for blank input).
- `tasks.dfy` — module `Tasks`: the `Task` record, `find` by id (first
  match), `filter`, the status views, deletion by id, the status toggle and
  the inline edit as list functions, and the overdue test and badge.
- `app.dfy` — module `App`: the `Store` class (the storage global, which
  outlives an app instance) and the `TodoApp` class, whose methods update
  `tasks`, `currentFilter`, `editingTaskId`, `isEditMode` and the store in
  place, each proved against the list functions of `Tasks`.

Abstractions:

- DOM reads become parameters: the task input text, the date input (a day
  number, `None` for an empty field) and the answer of `confirm()`.
- `Date.now()` and `new Date().toISOString()` become the parameters `id` and
  `createdAt`; "today" for the overdue test is a day-number parameter.
- The message `showAlert` would display is returned as an `Alert`
  (message and level), so the error paths of each operation are visible.
- Serialisation is abstract: the store holds `Absent`, `Malformed` or
  `Saved(tasks)`; `JSON.parse(JSON.stringify(tasks))` is taken to give the
  list back unchanged.

Invariants. `TodoApp.Valid()` holds after every public operation (and after `ExitEditMode`): edit mode is on
exactly when an id is being edited, and loading the stored snapshot gives
back the current list (so every successful mutation has saved, and an
operation that did not save did not change the list). The helpers `LoadTasks` and `SaveTasks` each re-establish the persistence half of it. The list invariant
`WellFormed` (ids pairwise distinct; texts trimmed and non-empty) is not part
of `Valid()`, because a loaded snapshot may violate it; instead every
operation preserves it, and `AddTask` does so when the clock value `id` is
not already in use. The source intends ids to be unique ("timestamp as
unique ID") but `Date.now()` does not guarantee it; `tasks.find` is modelled
as "first task with the id", so toggle and edit are modelled faithfully even
when two tasks share an id, while deletion removes every task with it.

## Model

| member | source | states |
|---|---|---|
| `Text.Trim` | js/script.js:58 | the trimmed text is no longer than the input and has whitespace at neither end |
| `Text.TrimShape` | js/script.js:58 | the trimmed input is a piece of the input between whitespace-only ends and has no whitespace at either end |
| `Text.TrimEmptyIff` | js/script.js:61 | the trimmed text is empty (the `!taskText` rejection) exactly when every character of the input is whitespace |
| `Text.TrimIdempotent` | js/script.js:137 | trimming an already trimmed text changes nothing, so stored texts are trimmed |
| `Text.TrimOfClean` | js/script.js:137 | a text with no whitespace at either end is kept as it is |
| `Text.TrimUnique` | js/script.js:58 | any clean piece surrounded by whitespace only is exactly what trim returns |
| `Tasks.Flip` | js/script.js:101 | the toggled status always differs from the old one |
| `Tasks.FlipInvolution` | js/script.js:101 | flipping twice gives the original status |
| `Tasks.Find` | js/script.js:98 | `find` by id yields the first position holding that id, and nothing exactly when no task has the id |
| `Tasks.FindUnique` | js/script.js:109 | with unique ids, the task found is the only one with that id |
| `Tasks.FindSameIds` | js/script.js:145 | lists with the same ids position by position find an id at the same place |
| `Tasks.Filter` | js/script.js:199 | the filtered list is no longer than the input and holds exactly the input tasks that pass the test |
| `Tasks.FilterAppend` | js/script.js:199 | filtering distributes over concatenation, so kept tasks stay in insertion order |
| `Tasks.FilterKeepsAll` | js/script.js:90 | a test every task passes returns the whole list, so deleting an absent id keeps the list |
| `Tasks.FilterIdempotent` | js/script.js:201 | filtering a filtered list by the same test changes nothing |
| `Tasks.View` | js/script.js:195-205 | every view is no longer than the list and shows only tasks of the list |
| `Tasks.ViewContents` | js/script.js:195-205 | 'pending' and 'completed' show exactly the tasks of that status; every other filter string, 'all' included, shows the whole list |
| `Tasks.ViewPartition` | js/script.js:198-201 | the pending and completed views together hold every task exactly once (as multisets and by length) |
| `Tasks.ViewIdempotent` | js/script.js:195-205 | a view seen through the same filter again is unchanged |
| `Tasks.ViewAppend` | js/script.js:76 | a task appended to the list appears at the end of each view it belongs to and in no other |
| `Tasks.Without` | js/script.js:90 | the list after deletion is no longer than before and holds exactly the tasks with another id |
| `Tasks.WithoutContents` | js/script.js:90 | after deletion no task has the id, every other task remains, the list shrinks when the id was present and is unchanged when it was not |
| `Tasks.DropOne` | js/script.js:90 | deleting an id that is present makes the list shorter |
| `Tasks.WithoutIdempotent` | js/script.js:90 | deleting the same id a second time changes nothing |
| `Tasks.WithoutWellFormed` | js/script.js:90 | deletion keeps ids unique and texts valid |
| `Tasks.SubWellFormed` | js/script.js:90 | any filtered list of a well-formed list is well formed |
| `Tasks.FilterUnique` | js/script.js:90 | filtering keeps ids unique |
| `Tasks.UniqueCons` | js/script.js:90 | the step of the deletion filter's induction: a kept task whose id the rest of the filtered list does not use, put in front, keeps ids unique |
| `Tasks.ToggleIn` | js/script.js:97-101 | toggling keeps length, ids, texts, due dates and creation times, leaves every task with another id untouched, flips the status of the task with the id (ids unique), and is a no-op for an unknown id |
| `Tasks.ToggleTwice` | js/script.js:97-101 | toggling the same id twice restores the list |
| `Tasks.ToggleWellFormed` | js/script.js:101 | toggling keeps ids unique and texts valid |
| `Tasks.EditIn` | js/script.js:145-149 | the inline edit keeps length, ids, statuses and creation times, leaves other tasks untouched, gives the edited task the new text and due date (ids unique), and is a no-op for an unknown id |
| `Tasks.EditWellFormed` | js/script.js:148 | editing with a trimmed non-empty text keeps the list well formed |
| `Tasks.StatusName` | js/script.js:101-104 | the status is spelled 'pending' exactly for pending tasks and 'completed' exactly for completed ones |
| `Tasks.IsPastDue` | js/script.js:218-225 | a missing due date is never past due |
| `Tasks.IsOverdue` | js/script.js:243 | a completed task, or one without a due date, is never flagged overdue |
| `Tasks.StatusBadge` | js/script.js:247-251 | the Completed badge is shown exactly for completed tasks, and the Overdue badge only for pending tasks due before today |
| `Tasks.BadgeCases` | js/script.js:243-251 | the badge is Completed exactly for completed tasks, Overdue exactly for pending tasks due before today, Pending otherwise |
| `Tasks.OverdueFacts` | js/script.js:218-225 | a task without a due date is never overdue, a completed one never is, toggling an overdue task clears it, and an overdue task stays overdue on later days |
| `App.Load` | js/script.js:308-320 | loading a saved list gives it back; a missing or undecodable snapshot gives the empty list |
| `App.Store.constructor` | js/script.js:302-304 | the storage global starts with the given value |
| `App.TodoApp.constructor` | js/script.js:2-18 | a new app holds the loaded list, filter 'all' and no edit session, and is valid |
| `App.TodoApp.LoadTasks` | js/script.js:308-320 | the list becomes what the stored snapshot decodes to |
| `App.TodoApp.SaveTasks` | js/script.js:299-306 | the stored snapshot becomes the current list |
| `App.TodoApp.AddTask` | js/script.js:54-85 | blank input changes nothing and warns; otherwise exactly one pending task with the trimmed text and the given date is appended, earlier tasks unchanged, and saved; filter and edit session untouched; ids stay unique when the new id is fresh |
| `App.TodoApp.DeleteTask` | js/script.js:87-95 | confirmed, the list becomes the tasks with other ids in order, and is saved; declined, nothing changes |
| `App.TodoApp.ToggleTaskStatus` | js/script.js:97-106 | the list becomes the toggled list; an unknown id changes and saves nothing; the message names the new status |
| `App.TodoApp.EditTask` | js/script.js:108-131 | on an existing id enters edit mode on that id and returns the task to prefill the inputs; an unknown id changes nothing; the list is untouched |
| `App.TodoApp.ExitEditMode` | js/script.js:165-178 | the edit session is cleared and nothing else changes |
| `App.TodoApp.CancelInlineEdit` | js/script.js:157-163 | the edit session is cleared unconditionally; the list is untouched |
| `App.TodoApp.SaveInlineEdit` | js/script.js:133-155 | blank text or no task with the edited id leaves everything as it was, session open; otherwise only the edited task's text and due date change, the list is saved and the session closes |
| `App.TodoApp.DeleteAllTasks` | js/script.js:180-193 | an empty list changes nothing and informs; a non-empty list is emptied and saved when confirmed and kept when declined |
| `App.TodoApp.GetFilteredTasks` | js/script.js:195-205 | the shown tasks are tasks of the list, no more of them than in the list, and every filter other than 'pending' and 'completed' shows the whole list |
| `App.TodoApp.IsBeingEdited` | js/script.js:244 | no row is marked as being edited outside edit mode, and a marked row has the edited id |
| `App.TodoApp.SetFilter` | js/script.js:42-45 | the filter becomes the selected value, unvalidated |
| `App.TodoApp.Submit` | js/script.js:22-39 | in edit mode the inline edit is saved, with the three outcomes of saveInlineEdit (blank text, no task with the edited id, success) and their list, store, session and alert; otherwise a task is added, with addTask's two outcomes |
| `App.AppendWellFormed` | js/script.js:67-76 | appending a task with an unused id and a trimmed non-empty text keeps the list well formed |
| `App.AtMostOneEdited` | js/script.js:244 | with unique ids at most one row is marked as being edited |
| `App.Reload` | js/script.js:324-326 | a new app over the same storage holds exactly the list of the running one |

## Left out

- DOM wiring and markup: the HTML built in `render`, button and notification
  class changes in `editTask`/`exitEditMode`, input clearing and focus. They
  are presentation only; the row flags `render` computes (overdue, badge,
  being edited) are modelled.
- `showAlert`'s DOM work and its three-second timer; only the message and
  level it is given are modelled.
- `confirm()`, `Date.now()`, `new Date()` and `toISOString`: foreign calls
  and clock reads, passed in as parameters.
- `formatDate`: locale formatting by `toLocaleDateString`.
- Date parsing and time zones in `isOverdue`: due dates and today are day
  numbers, so `new Date('YYYY-MM-DD')` being read as UTC midnight while
  today is local midnight is not modelled.
- `JSON.stringify`/`JSON.parse`: a snapshot is abstract; a text that parses
  to something other than an array of tasks (for example `null`), and status
  strings other than 'pending' and 'completed' in a loaded snapshot, are not
  representable.
- `console.warn` on a failed load.
- The `typeof window !== 'undefined'` guards in `saveTasks` and `loadTasks`: the model always has the
  storage global, so the case where saving does nothing and loading yields [] outside a browser is not modelled.
- AddTask: ids are kept unique only when the supplied clock value is unused;
  the source's `Date.now()` can repeat within one millisecond, which the
  model leaves to the caller.
