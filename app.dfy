/**
 * The `TodoApp` controller: the task list, the active filter, the edit
 * session, and the snapshot it keeps in the simulated local storage.
 * DOM reads, `confirm()` and the clock become parameters; the message
 * `showAlert` would display becomes a returned `Alert`.
 */
module App {
  import opened Wrappers
  import opened Text
  import opened Tasks

  /** The value of `window.todoTasksData`: unset, undecodable, or a serialized list. */
  datatype Snapshot = Absent | Malformed | Saved(tasks: seq<Task>)

  /**
   * `loadTasks`: a saved list loads back as it was; an unset or undecodable
   * snapshot yields the empty list.
   */
  function Load(s: Snapshot): (r: seq<Task>)
    ensures s.Saved? ==> r == s.tasks
    ensures !s.Saved? ==> r == []
  {
    match s
    case Saved(ts) => ts
    case _ => []
  }

  datatype Level = Success | Warning | Info

  /** The toast `showAlert(message, type)` would show. */
  datatype Alert = Alert(message: string, level: Level)

  /** The simulated local storage: the global `window.todoTasksData`, which outlives one app instance. */
  class Store {
    var todoTasksData: Snapshot

    constructor (initial: Snapshot)
      ensures todoTasksData == initial
    {
      todoTasksData := initial;
    }
  }

  class TodoApp {
    var tasks: seq<Task>
    var currentFilter: string
    var editingTaskId: Option<int>
    var isEditMode: bool
    const store: Store

    /**
     * The object invariant: edit mode is on exactly when an id is being
     * edited, and loading the stored snapshot gives back the current list.
     */
    ghost predicate Valid()
      reads this, store
    {
      (isEditMode <==> editingTaskId.Some?) && Load(store.todoTasksData) == tasks
    }

    /** `new TodoApp()`: loads the snapshot, filter 'all', no edit session. */
    constructor (store: Store)
      ensures Valid() && this.store == store
      ensures tasks == Load(store.todoTasksData)
      ensures currentFilter == "all" && editingTaskId == None && !isEditMode
      ensures store.todoTasksData.Saved? && WellFormed(store.todoTasksData.tasks) ==> WellFormed(tasks)
      ensures !store.todoTasksData.Saved? ==> tasks == []
    {
      this.store := store;
      tasks := [];
      currentFilter := "all";
      editingTaskId := None;
      isEditMode := false;
      new;
      LoadTasks();
    }

    /** `loadTasks` */
    method LoadTasks()
      modifies this`tasks
      ensures tasks == Load(store.todoTasksData)
    {
      match store.todoTasksData
      case Saved(ts) => tasks := ts;
      case Malformed => tasks := [];
      case Absent => tasks := [];
    }

    /** `saveTasks`: the stored snapshot becomes the current list. */
    method SaveTasks()
      modifies store
      ensures store.todoTasksData == Saved(tasks)
      ensures Load(store.todoTasksData) == tasks
    {
      store.todoTasksData := Saved(tasks);
    }

    /**
     * `addTask` with the task input `input`, the date input `dateInput`,
     * `Date.now()` as `id` and the ISO creation time as `createdAt`.
     */
    method AddTask(input: string, dateInput: Option<Day>, id: int, createdAt: string) returns (alert: Alert)
      requires Valid()
      modifies this, store
      ensures Valid()
      ensures currentFilter == old(currentFilter) && editingTaskId == old(editingTaskId) && isEditMode == old(isEditMode)
      ensures AllWhitespace(input) ==>
                tasks == old(tasks) && store.todoTasksData == old(store.todoTasksData)
                && alert == Alert("Please enter a task!", Warning)
      ensures !AllWhitespace(input) ==>
                tasks == old(tasks) + [Task(id, Trim(input), dateInput, Pending, createdAt)]
                && store.todoTasksData == Saved(tasks)
                && alert == Alert("Task added successfully!", Success)
      ensures WellFormed(old(tasks)) && !HasId(old(tasks), id) ==> WellFormed(tasks)
    {
      var taskText := Trim(input);
      TrimEmptyIff(input);
      if taskText == [] {
        alert := Alert("Please enter a task!", Warning);
        return;
      }
      TrimIdempotent(input);
      var task := Task(id, taskText, dateInput, Pending, createdAt);
      ghost var before := tasks;
      tasks := tasks + [task];
      if WellFormed(before) && !HasId(before, id) {
        AppendWellFormed(before, task);
      }
      SaveTasks();
      alert := Alert("Task added successfully!", Success);
    }

    /** `deleteTask(id)` with the answer of the confirmation dialog as `confirmed`. */
    method DeleteTask(id: int, confirmed: bool) returns (alert: Option<Alert>)
      requires Valid()
      modifies this, store
      ensures Valid()
      ensures currentFilter == old(currentFilter) && editingTaskId == old(editingTaskId) && isEditMode == old(isEditMode)
      ensures !confirmed ==> tasks == old(tasks) && store.todoTasksData == old(store.todoTasksData) && alert == None
      ensures confirmed ==>
                tasks == Without(old(tasks), id) && store.todoTasksData == Saved(tasks)
                && alert == Some(Alert("Task deleted!", Info))
      ensures WellFormed(old(tasks)) ==> WellFormed(tasks)
    {
      alert := None;
      if confirmed {
        if WellFormed(tasks) {
          WithoutWellFormed(tasks, id);
        }
        tasks := Without(tasks, id);
        SaveTasks();
        alert := Some(Alert("Task deleted!", Info));
      }
    }

    /** `toggleTaskStatus(id)` */
    method ToggleTaskStatus(id: int) returns (alert: Option<Alert>)
      requires Valid()
      modifies this, store
      ensures Valid()
      ensures currentFilter == old(currentFilter) && editingTaskId == old(editingTaskId) && isEditMode == old(isEditMode)
      ensures tasks == ToggleIn(old(tasks), id)
      ensures !HasId(old(tasks), id) ==> store.todoTasksData == old(store.todoTasksData) && alert == None
      ensures HasId(old(tasks), id) ==>
                store.todoTasksData == Saved(tasks)
                && alert == Some(Alert("Task marked as " + StatusName(tasks[Find(old(tasks), id).value].status) + "!", Success))
      ensures WellFormed(old(tasks)) ==> WellFormed(tasks)
    {
      alert := None;
      var found := Find(tasks, id);
      if found.Some? {
        var i := found.value;
        var task := tasks[i];
        tasks := tasks[i := task.(status := Flip(task.status))];
        SaveTasks();
        alert := Some(Alert("Task marked as " + StatusName(tasks[i].status) + "!", Success));
      }
      if WellFormed(old(tasks)) {
        ToggleWellFormed(old(tasks), id);
      }
    }

    /**
     * `editTask(id)`: enters the edit session on an existing task and returns
     * that task, whose text and due date prefill the inputs.
     */
    method EditTask(id: int) returns (prefill: Option<Task>)
      requires Valid()
      modifies this
      ensures Valid()
      ensures tasks == old(tasks) && currentFilter == old(currentFilter)
      ensures !HasId(tasks, id) ==> prefill == None && editingTaskId == old(editingTaskId) && isEditMode == old(isEditMode)
      ensures HasId(tasks, id) ==>
                isEditMode && editingTaskId == Some(id)
                && prefill == Some(tasks[Find(tasks, id).value]) && prefill.value.id == id
    {
      prefill := None;
      var found := Find(tasks, id);
      if found.Some? {
        isEditMode := true;
        editingTaskId := Some(id);
        prefill := Some(tasks[found.value]);
      }
    }

    /** `exitEditMode`: clears the edit session. */
    method ExitEditMode()
      requires Valid()
      modifies this
      ensures Valid()
      ensures !isEditMode && editingTaskId == None
      ensures tasks == old(tasks) && currentFilter == old(currentFilter)
    {
      isEditMode := false;
      editingTaskId := None;
    }

    /** `cancelInlineEdit`: always leaves the edit session; the list is untouched. */
    method CancelInlineEdit() returns (alert: Alert)
      requires Valid()
      modifies this
      ensures Valid()
      ensures !isEditMode && editingTaskId == None
      ensures tasks == old(tasks) && currentFilter == old(currentFilter)
      ensures alert == Alert("Edit cancelled", Info)
    {
      ExitEditMode();
      alert := Alert("Edit cancelled", Info);
    }

    /**
     * `saveInlineEdit` with the inputs `input` and `dateInput`. Empty text, or
     * no task with the edited id, leaves the whole state as it was, session included.
     */
    method SaveInlineEdit(input: string, dateInput: Option<Day>) returns (alert: Option<Alert>)
      requires Valid()
      modifies this, store
      ensures Valid()
      ensures currentFilter == old(currentFilter)
      ensures AllWhitespace(input) ==>
                tasks == old(tasks) && store.todoTasksData == old(store.todoTasksData)
                && editingTaskId == old(editingTaskId) && isEditMode == old(isEditMode)
                && alert == Some(Alert("Please enter a task!", Warning))
      ensures !AllWhitespace(input) && (old(editingTaskId).None? || !HasId(old(tasks), old(editingTaskId).value)) ==>
                tasks == old(tasks) && store.todoTasksData == old(store.todoTasksData)
                && editingTaskId == old(editingTaskId) && isEditMode == old(isEditMode) && alert == None
      ensures !AllWhitespace(input) && old(editingTaskId).Some? && HasId(old(tasks), old(editingTaskId).value) ==>
                tasks == EditIn(old(tasks), old(editingTaskId).value, Trim(input), dateInput)
                && store.todoTasksData == Saved(tasks)
                && !isEditMode && editingTaskId == None
                && alert == Some(Alert("Task updated!", Success))
      ensures WellFormed(old(tasks)) ==> WellFormed(tasks)
    {
      var taskText := Trim(input);
      TrimEmptyIff(input);
      if taskText == [] {
        alert := Some(Alert("Please enter a task!", Warning));
        return;
      }
      alert := None;
      if editingTaskId.Some? {
        var id := editingTaskId.value;
        var found := Find(tasks, id);
        if found.Some? {
          var i := found.value;
          TrimIdempotent(input);
          if WellFormed(tasks) {
            EditWellFormed(tasks, id, taskText, dateInput);
          }
          tasks := tasks[i := tasks[i].(text := taskText, dueDate := dateInput)];
          SaveTasks();
          ExitEditMode();
          alert := Some(Alert("Task updated!", Success));
        }
      }
    }

    /** `deleteAllTasks` with the answer of the confirmation dialog as `confirmed`. */
    method DeleteAllTasks(confirmed: bool) returns (alert: Option<Alert>)
      requires Valid()
      modifies this, store
      ensures Valid()
      ensures currentFilter == old(currentFilter) && editingTaskId == old(editingTaskId) && isEditMode == old(isEditMode)
      ensures old(tasks) == [] ==>
                tasks == [] && store.todoTasksData == old(store.todoTasksData)
                && alert == Some(Alert("No tasks to delete!", Info))
      ensures old(tasks) != [] && !confirmed ==>
                tasks == old(tasks) && store.todoTasksData == old(store.todoTasksData) && alert == None
      ensures old(tasks) != [] && confirmed ==>
                tasks == [] && store.todoTasksData == Saved([])
                && alert == Some(Alert("All tasks deleted!", Info))
      ensures WellFormed(old(tasks)) ==> WellFormed(tasks)
    {
      if |tasks| == 0 {
        alert := Some(Alert("No tasks to delete!", Info));
        return;
      }
      alert := None;
      if confirmed {
        tasks := [];
        SaveTasks();
        alert := Some(Alert("All tasks deleted!", Info));
      }
    }

    /** The filter select's change handler: `this.currentFilter = e.target.value`. */
    method SetFilter(value: string)
      requires Valid()
      modifies this`currentFilter
      ensures Valid() && currentFilter == value
    {
      currentFilter := value;
    }

    /**
     * The Add/Save button and the Enter key: save the inline edit while in
     * edit mode, add a new task otherwise.
     */
    method Submit(input: string, dateInput: Option<Day>, id: int, createdAt: string) returns (alert: Option<Alert>)
      requires Valid()
      modifies this, store
      ensures Valid()
      ensures currentFilter == old(currentFilter)
      ensures !old(isEditMode) && AllWhitespace(input) ==>
                tasks == old(tasks) && store.todoTasksData == old(store.todoTasksData)
                && editingTaskId == old(editingTaskId) && isEditMode == old(isEditMode)
                && alert == Some(Alert("Please enter a task!", Warning))
      ensures !old(isEditMode) && !AllWhitespace(input) ==>
                tasks == old(tasks) + [Task(id, Trim(input), dateInput, Pending, createdAt)]
                && store.todoTasksData == Saved(tasks)
                && editingTaskId == old(editingTaskId) && isEditMode == old(isEditMode)
                && alert == Some(Alert("Task added successfully!", Success))
      ensures old(isEditMode) && AllWhitespace(input) ==>
                tasks == old(tasks) && store.todoTasksData == old(store.todoTasksData)
                && editingTaskId == old(editingTaskId) && isEditMode
                && alert == Some(Alert("Please enter a task!", Warning))
      ensures old(isEditMode) && !AllWhitespace(input) && !HasId(old(tasks), old(editingTaskId).value) ==>
                tasks == old(tasks) && store.todoTasksData == old(store.todoTasksData)
                && editingTaskId == old(editingTaskId) && isEditMode && alert == None
      ensures old(isEditMode) && !AllWhitespace(input) && HasId(old(tasks), old(editingTaskId).value) ==>
                tasks == EditIn(old(tasks), old(editingTaskId).value, Trim(input), dateInput)
                && store.todoTasksData == Saved(tasks)
                && !isEditMode && editingTaskId == None
                && alert == Some(Alert("Task updated!", Success))
      ensures WellFormed(old(tasks)) && !HasId(old(tasks), id) ==> WellFormed(tasks)
      ensures old(isEditMode) && WellFormed(old(tasks)) ==> WellFormed(tasks)
    {
      if isEditMode {
        alert := SaveInlineEdit(input, dateInput);
      } else {
        var a := AddTask(input, dateInput, id, createdAt);
        alert := Some(a);
      }
    }

    /** `getFilteredTasks`: the tasks the current filter shows. */
    function GetFilteredTasks(): (r: seq<Task>)
      reads this
      ensures |r| <= |tasks| && forall t :: t in r ==> t in tasks
      ensures currentFilter != "pending" && currentFilter != "completed" ==> r == tasks
    {
      View(tasks, currentFilter)
    }

    /** `isBeingEdited` of a row in `render`. */
    predicate IsBeingEdited(t: Task)
      reads this
      ensures !isEditMode ==> !IsBeingEdited(t)
      ensures IsBeingEdited(t) ==> editingTaskId == Some(t.id)
    {
      isEditMode && editingTaskId == Some(t.id)
    }
  }

  /** Appending a task with a fresh id and clean text keeps the list invariants. */
  lemma AppendWellFormed(ts: seq<Task>, t: Task)
    requires WellFormed(ts) && !HasId(ts, t.id) && ValidText(t.text)
    ensures WellFormed(ts + [t])
  {
    var s := ts + [t];
    forall i, j | 0 <= i < j < |s| ensures s[i].id != s[j].id {
      assert s[i] == ts[i];
      if j < |ts| { assert s[j] == ts[j]; }
    }
  }

  /** With unique ids at most one row of the list is marked as being edited. */
  lemma AtMostOneEdited(app: TodoApp, i: nat, j: nat)
    requires UniqueIds(app.tasks) && i < |app.tasks| && j < |app.tasks|
    requires app.IsBeingEdited(app.tasks[i]) && app.IsBeingEdited(app.tasks[j])
    ensures i == j
  {
  }

  /**
   * Reloading: a fresh app over the same store sees exactly the list the
   * running one holds.
   */
  method Reload(app: TodoApp) returns (again: TodoApp)
    requires app.Valid()
    ensures fresh(again) && again.Valid() && again.store == app.store
    ensures again.tasks == app.tasks
  {
    again := new TodoApp(app.store);
  }
}
