/**
 * Task records and the pure operations on a list of them: finding a task by
 * id, the status filters, removal by id, the status toggle, the inline edit,
 * and the overdue test and status badge used when rendering.
 */
module Tasks {
  import opened Wrappers
  import opened Text

  datatype Status = Pending | Completed

  /** A calendar date, date-only, as a day number (day 0 is any fixed epoch). */
  type Day = int

  /** One to-do item; `dueDate` is None when the date field was empty. */
  datatype Task = Task(id: int, text: string, dueDate: Option<Day>, status: Status, createdAt: string)

  /** The status as the source spells it ('pending' or 'completed'). */
  function StatusName(s: Status): (r: string)
    ensures r == "pending" <==> s == Pending
    ensures r == "completed" <==> s == Completed
  {
    match s
    case Pending => "pending"
    case Completed => "completed"
  }

  /** `task.status === 'pending' ? 'completed' : 'pending'` */
  function Flip(s: Status): (r: Status)
    ensures r != s
  {
    if s == Pending then Completed else Pending
  }

  lemma FlipInvolution(s: Status)
    ensures Flip(Flip(s)) == s
  {
  }

  // ---------------------------------------------------------------- ids

  predicate HasId(ts: seq<Task>, id: int) {
    exists k :: 0 <= k < |ts| && ts[k].id == id
  }

  /** No two tasks of the list share an id. */
  predicate UniqueIds(ts: seq<Task>) {
    forall i, j :: 0 <= i < j < |ts| ==> ts[i].id != ts[j].id
  }

  /** A task text as addTask and saveInlineEdit store it: trimmed and not empty. */
  predicate ValidText(s: string) {
    s != [] && Trim(s) == s
  }

  /** The invariants the list keeps: unique ids and trimmed, non-empty texts. */
  predicate WellFormed(ts: seq<Task>) {
    UniqueIds(ts) && forall k :: 0 <= k < |ts| ==> ValidText(ts[k].text)
  }

  /** `tasks.find(task => task.id === id)`, as the position of the first task with that id. */
  function Find(ts: seq<Task>, id: int): (r: Option<nat>)
    ensures r.Some? ==> r.value < |ts| && ts[r.value].id == id
    ensures r.Some? ==> forall k :: 0 <= k < r.value ==> ts[k].id != id
    ensures r.None? <==> !HasId(ts, id)
  {
    if ts == [] then None
    else if ts[0].id == id then Some(0)
    else
      match Find(ts[1..], id)
      case None =>
        assert forall k :: 1 <= k < |ts| ==> ts[k] == ts[1..][k - 1];
        None
      case Some(k) => Some(k + 1)
  }

  /** Under unique ids, the first task with an id is the only one. */
  lemma FindUnique(ts: seq<Task>, id: int, k: nat)
    requires UniqueIds(ts) && k < |ts| && ts[k].id == id
    ensures Find(ts, id) == Some(k)
  {
    var r := Find(ts, id);
    assert r.Some? by { assert HasId(ts, id); }
  }

  /** Two lists with the same ids position by position find an id at the same place. */
  lemma {:induction false} FindSameIds(a: seq<Task>, b: seq<Task>, id: int)
    requires |a| == |b| && forall k :: 0 <= k < |a| ==> a[k].id == b[k].id
    ensures Find(a, id) == Find(b, id)
  {
    if a != [] && a[0].id != id {
      FindSameIds(a[1..], b[1..], id);
    }
  }

  // ---------------------------------------------------------------- filters

  /** `Array.prototype.filter`: the tasks satisfying `keep`, in their order. */
  function Filter(ts: seq<Task>, keep: Task -> bool): (r: seq<Task>)
    ensures |r| <= |ts|
    ensures forall t :: t in r <==> t in ts && keep(t)
  {
    if ts == [] then []
    else if keep(ts[0]) then [ts[0]] + Filter(ts[1..], keep)
    else Filter(ts[1..], keep)
  }

  /** Filtering distributes over concatenation, so the kept tasks stay in their relative order. */
  lemma {:induction false} FilterAppend(a: seq<Task>, b: seq<Task>, keep: Task -> bool)
    ensures Filter(a + b, keep) == Filter(a, keep) + Filter(b, keep)
  {
    if a == [] {
      assert a + b == b;
    } else {
      assert (a + b)[1..] == a[1..] + b;
      FilterAppend(a[1..], b, keep);
    }
  }

  /** A filter that keeps every task returns the list itself. */
  lemma {:induction false} FilterKeepsAll(ts: seq<Task>, keep: Task -> bool)
    requires forall k :: 0 <= k < |ts| ==> keep(ts[k])
    ensures Filter(ts, keep) == ts
  {
    if ts != [] {
      FilterKeepsAll(ts[1..], keep);
    }
  }

  /** Filtering twice by the same test is filtering once. */
  lemma FilterIdempotent(ts: seq<Task>, keep: Task -> bool)
    ensures Filter(Filter(ts, keep), keep) == Filter(ts, keep)
  {
    var r := Filter(ts, keep);
    assert forall k :: 0 <= k < |r| ==> r[k] in r;
    FilterKeepsAll(r, keep);
  }

  predicate IsPending(t: Task) { t.status == Pending }
  predicate IsCompleted(t: Task) { t.status == Completed }

  /**
   * `getFilteredTasks`: the tasks of one status for 'pending' and 'completed',
   * and the whole list for every other filter string.
   */
  function View(ts: seq<Task>, filter: string): (r: seq<Task>)
    ensures |r| <= |ts|
    ensures forall t :: t in r ==> t in ts
  {
    if filter == "pending" then Filter(ts, IsPending)
    else if filter == "completed" then Filter(ts, IsCompleted)
    else ts
  }

  /** What each filter value shows. */
  lemma ViewContents(ts: seq<Task>, filter: string)
    ensures filter == "pending" ==> forall t :: t in View(ts, filter) <==> t in ts && t.status == Pending
    ensures filter == "completed" ==> forall t :: t in View(ts, filter) <==> t in ts && t.status == Completed
    ensures filter != "pending" && filter != "completed" ==> View(ts, filter) == ts
  {
  }

  /** The pending and the completed view together hold every task exactly once. */
  lemma {:induction false} ViewPartition(ts: seq<Task>)
    ensures multiset(View(ts, "pending")) + multiset(View(ts, "completed")) == multiset(ts)
    ensures |View(ts, "pending")| + |View(ts, "completed")| == |ts|
  {
    if ts != [] {
      ViewPartition(ts[1..]);
      assert ts == [ts[0]] + ts[1..];
    }
  }

  /** Each view is a projection: showing it again through the same filter changes nothing. */
  lemma ViewIdempotent(ts: seq<Task>, filter: string)
    ensures View(View(ts, filter), filter) == View(ts, filter)
  {
    if filter == "pending" {
      FilterIdempotent(ts, IsPending);
    } else if filter == "completed" {
      FilterIdempotent(ts, IsCompleted);
    }
  }

  /** Views of a list with a task appended: the new task lands at the end of every view it belongs to. */
  lemma ViewAppend(ts: seq<Task>, t: Task, filter: string)
    ensures View(ts + [t], filter) ==
      View(ts, filter) + (if (filter != "pending" && filter != "completed")
                             || (filter == "pending" && t.status == Pending)
                             || (filter == "completed" && t.status == Completed) then [t] else [])
  {
    if filter == "pending" {
      FilterAppend(ts, [t], IsPending);
    } else if filter == "completed" {
      FilterAppend(ts, [t], IsCompleted);
    }
  }

  // ---------------------------------------------------------------- deletion

  /** `tasks.filter(task => task.id !== id)` */
  function Without(ts: seq<Task>, id: int): (r: seq<Task>)
    ensures |r| <= |ts|
    ensures forall t :: t in r <==> t in ts && t.id != id
  {
    Filter(ts, (t: Task) => t.id != id)
  }

  /** Deleting removes every task with the id and keeps every other one. */
  lemma WithoutContents(ts: seq<Task>, id: int)
    ensures !HasId(Without(ts, id), id)
    ensures forall t :: t in Without(ts, id) <==> t in ts && t.id != id
    ensures HasId(ts, id) ==> |Without(ts, id)| < |ts|
    ensures !HasId(ts, id) ==> Without(ts, id) == ts
  {
    var r := Without(ts, id);
    assert forall k :: 0 <= k < |r| ==> r[k] in r;
    if HasId(ts, id) {
      var k :| 0 <= k < |ts| && ts[k].id == id;
      DropOne(ts, id, k);
    } else {
      FilterKeepsAll(ts, (t: Task) => t.id != id);
    }
  }

  lemma DropOne(ts: seq<Task>, id: int, k: nat)
    requires k < |ts| && ts[k].id == id
    ensures |Without(ts, id)| < |ts|
  {
    assert ts == ts[..k] + [ts[k]] + ts[k + 1..];
    FilterAppend(ts[..k] + [ts[k]], ts[k + 1..], (t: Task) => t.id != id);
    FilterAppend(ts[..k], [ts[k]], (t: Task) => t.id != id);
  }

  /** A second deletion of the same id changes nothing. */
  lemma WithoutIdempotent(ts: seq<Task>, id: int)
    ensures Without(Without(ts, id), id) == Without(ts, id)
  {
    FilterIdempotent(ts, (t: Task) => t.id != id);
  }

  /** Deletion preserves the list invariants. */
  lemma WithoutWellFormed(ts: seq<Task>, id: int)
    requires WellFormed(ts)
    ensures WellFormed(Without(ts, id))
  {
    SubWellFormed(ts, (t: Task) => t.id != id);
  }

  lemma SubWellFormed(ts: seq<Task>, keep: Task -> bool)
    requires WellFormed(ts)
    ensures WellFormed(Filter(ts, keep))
  {
    FilterUnique(ts, keep);
    var r := Filter(ts, keep);
    forall k | 0 <= k < |r| ensures ValidText(r[k].text) {
      assert r[k] in ts;
    }
  }

  lemma {:induction false} FilterUnique(ts: seq<Task>, keep: Task -> bool)
    requires UniqueIds(ts)
    ensures UniqueIds(Filter(ts, keep))
  {
    if ts != [] {
      var tail := ts[1..];
      assert UniqueIds(tail) by {
        forall i, j | 0 <= i < j < |tail| ensures tail[i].id != tail[j].id {
          assert tail[i] == ts[i + 1] && tail[j] == ts[j + 1];
        }
      }
      FilterUnique(tail, keep);
      if keep(ts[0]) {
        var r := Filter(tail, keep);
        forall x | x in r ensures x.id != ts[0].id {
          var m :| 0 <= m < |tail| && tail[m] == x;
          assert tail[m] == ts[m + 1];
        }
        UniqueCons(ts[0], r);
      }
    }
  }

  lemma UniqueCons(t: Task, r: seq<Task>)
    requires UniqueIds(r) && forall x :: x in r ==> x.id != t.id
    ensures UniqueIds([t] + r)
  {
    var s := [t] + r;
    forall i, j | 0 <= i < j < |s| ensures s[i].id != s[j].id {
      assert s[j] == r[j - 1];
      if i > 0 { assert s[i] == r[i - 1]; }
    }
  }

  // ---------------------------------------------------------------- toggle

  /** `toggleTaskStatus` on the list: the first task with the id flips status; no such task, no change. */
  function ToggleIn(ts: seq<Task>, id: int): (r: seq<Task>)
    ensures |r| == |ts|
    ensures forall k :: 0 <= k < |ts| ==>
              (r[k].id == ts[k].id && r[k].text == ts[k].text && r[k].dueDate == ts[k].dueDate && r[k].createdAt == ts[k].createdAt)
    ensures forall k :: 0 <= k < |ts| && ts[k].id != id ==> r[k] == ts[k]
    ensures UniqueIds(ts) ==> forall k :: 0 <= k < |ts| && ts[k].id == id ==> r[k].status == Flip(ts[k].status)
    ensures Find(ts, id).Some? ==>
              var i := Find(ts, id).value;
              r[i].status == Flip(ts[i].status) && forall k :: 0 <= k < |ts| && k != i ==> r[k] == ts[k]
    ensures !HasId(ts, id) ==> r == ts
  {
    match Find(ts, id)
    case None => ts
    case Some(i) =>
      var r := ts[i := ts[i].(status := Flip(ts[i].status))];
      assert UniqueIds(ts) ==> forall k :: 0 <= k < |ts| && ts[k].id == id ==> k == i;
      r
  }

  /** Toggling the same id twice restores the list. */
  lemma ToggleTwice(ts: seq<Task>, id: int)
    ensures ToggleIn(ToggleIn(ts, id), id) == ts
  {
    var once := ToggleIn(ts, id);
    FindSameIds(ts, once, id);
    match Find(ts, id)
    case None =>
    case Some(i) =>
      FlipInvolution(ts[i].status);
  }

  lemma ToggleWellFormed(ts: seq<Task>, id: int)
    requires WellFormed(ts)
    ensures WellFormed(ToggleIn(ts, id))
  {
  }

  // ---------------------------------------------------------------- inline edit

  /**
   * The update `saveInlineEdit` makes: the first task with the id gets the
   * new text and due date, everything else stays.
   */
  function EditIn(ts: seq<Task>, id: int, text: string, due: Option<Day>): (r: seq<Task>)
    ensures |r| == |ts|
    ensures forall k :: 0 <= k < |ts| ==>
              (r[k].id == ts[k].id && r[k].status == ts[k].status && r[k].createdAt == ts[k].createdAt)
    ensures forall k :: 0 <= k < |ts| && ts[k].id != id ==> r[k] == ts[k]
    ensures UniqueIds(ts) ==> forall k :: 0 <= k < |ts| && ts[k].id == id ==> r[k].text == text && r[k].dueDate == due
    ensures Find(ts, id).Some? ==>
              var i := Find(ts, id).value;
              r[i].text == text && r[i].dueDate == due && forall k :: 0 <= k < |ts| && k != i ==> r[k] == ts[k]
    ensures !HasId(ts, id) ==> r == ts
  {
    match Find(ts, id)
    case None => ts
    case Some(i) =>
      assert UniqueIds(ts) ==> forall k :: 0 <= k < |ts| && ts[k].id == id ==> k == i;
      ts[i := ts[i].(text := text, dueDate := due)]
  }

  lemma EditWellFormed(ts: seq<Task>, id: int, text: string, due: Option<Day>)
    requires WellFormed(ts) && ValidText(text)
    ensures WellFormed(EditIn(ts, id, text, due))
  {
  }

  // ---------------------------------------------------------------- overdue and badge

  /** `isOverdue(dateString)`: there is a due date and it is before today (time of day ignored). */
  predicate IsPastDue(dueDate: Option<Day>, today: Day)
    ensures dueDate.None? ==> !IsPastDue(dueDate, today)
  {
    dueDate.Some? && dueDate.value < today
  }

  /** The `isOverdue` flag of a row in `render`: past due and still pending. */
  predicate IsOverdue(t: Task, today: Day)
    ensures t.status == Completed || t.dueDate.None? ==> !IsOverdue(t, today)
  {
    IsPastDue(t.dueDate, today) && t.status == Pending
  }

  datatype Badge = CompletedBadge | OverdueBadge | PendingBadge

  /** The status badge chosen in `render`. */
  function StatusBadge(t: Task, today: Day): (b: Badge)
    ensures b == CompletedBadge <==> t.status == Completed
    ensures b == OverdueBadge ==> t.status == Pending && t.dueDate.Some? && t.dueDate.value < today
  {
    if t.status == Completed then CompletedBadge
    else if IsOverdue(t, today) then OverdueBadge
    else PendingBadge
  }

  /** Exactly when each badge is shown. */
  lemma BadgeCases(t: Task, today: Day)
    ensures StatusBadge(t, today) == CompletedBadge <==> t.status == Completed
    ensures StatusBadge(t, today) == OverdueBadge <==>
              t.status == Pending && t.dueDate.Some? && t.dueDate.value < today
    ensures StatusBadge(t, today) == PendingBadge <==>
              t.status == Pending && (t.dueDate.None? || today <= t.dueDate.value)
  {
  }

  /** Overdue facts: no due date never counts; completion clears it; it only grows as days pass. */
  lemma OverdueFacts(t: Task, today: Day, later: Day)
    ensures t.dueDate.None? ==> !IsOverdue(t, today)
    ensures t.status == Completed ==> !IsOverdue(t, today)
    ensures IsOverdue(t, today) ==> !IsOverdue(t.(status := Flip(t.status)), today)
    ensures IsOverdue(t, today) && today <= later ==> IsOverdue(t, later)
  {
  }
}
