/**
 * The task record, the upgrade of legacy saved entries on load, the analytics
 * counts and the overdue test.
 */
module Tasks {
  import opened Wrappers
  import opened PriorityEngine

  /**
   * `{ text, done, priority, date, dueDate }`. `date` is the creation day as
   * displayed; `dueDate` is the date picker's value, "" when none was chosen.
   */
  datatype Task = Task(text: string, done: bool, priority: Priority, date: string, dueDate: string)

  /** A fresh record as both the add handler and the legacy upgrade build it. */
  function NewTask(text: string, dueDate: string, today: string): (t: Task)
    ensures !t.done && t.priority == Classify(text)
    ensures t.text == text && t.date == today && t.dueDate == dueDate
  {
    Task(text, false, Classify(text), today, dueDate)
  }

  /** One element of the decoded saved list: a plain string (the old format) or a full record. */
  datatype Entry = Legacy(text: string) | Saved(task: Task)

  /**
   * The callback of `saved.map`: a string becomes an undone record of its own
   * text with the computed tier, today's date and no due date; a record is kept.
   */
  function UpgradeEntry(e: Entry, today: string): (t: Task)
    ensures e.Saved? ==> t == e.task
    ensures e.Legacy? ==> t.text == e.text && !t.done && t.priority == Classify(e.text)
    ensures e.Legacy? ==> t.date == today && t.dueDate == ""
  {
    match e
    case Legacy(text) => NewTask(text, "", today)
    case Saved(t) => t
  }

  /**
   * The `saved.map(...)` of the load effect: strings become new undone records
   * with a computed priority, today's date and no due date; records pass through.
   */
  function UpgradeSaved(saved: seq<Entry>, today: string): (r: seq<Task>)
    ensures |r| == |saved|
    ensures forall k :: 0 <= k < |saved| && saved[k].Saved? ==> r[k] == saved[k].task
    ensures forall k :: 0 <= k < |saved| && saved[k].Legacy? ==>
              r[k] == Task(saved[k].text, false, Classify(saved[k].text), today, "")
  {
    if saved == [] then []
    else [UpgradeEntry(saved[0], today)] + UpgradeSaved(saved[1..], today)
  }

  /**
   * The task list after the load effect. `saved` is None when the stored value
   * is not an array (absent, or some other JSON value): the list keeps `current`.
   */
  function LoadTasks(saved: Option<seq<Entry>>, current: seq<Task>, today: string): (r: seq<Task>)
    ensures saved.None? ==> r == current
    ensures saved.Some? ==> |r| == |saved.value|
    ensures saved.Some? ==> forall k :: 0 <= k < |r| ==> r[k] == UpgradeEntry(saved.value[k], today)
  {
    match saved
    case None => current
    case Some(entries) => UpgradeSaved(entries, today)
  }

  /** The entries the save effect writes for `tasks`: every element is a full record. */
  function AsEntries(tasks: seq<Task>): (r: seq<Entry>)
    ensures |r| == |tasks|
    ensures forall k :: 0 <= k < |tasks| ==> r[k] == Saved(tasks[k])
  {
    if tasks == [] then [] else [Saved(tasks[0])] + AsEntries(tasks[1..])
  }

  /** Loading what was saved gives back the same list: the upgrade leaves records alone. */
  lemma {:induction false} LoadAfterSave(tasks: seq<Task>, current: seq<Task>, today: string)
    ensures LoadTasks(Some(AsEntries(tasks)), current, today) == tasks
  {
    var r := UpgradeSaved(AsEntries(tasks), today);
    assert |r| == |tasks|;
    forall k | 0 <= k < |tasks| ensures r[k] == tasks[k] {
      assert AsEntries(tasks)[k] == Saved(tasks[k]);
    }
  }

  /** Loading the legacy list ["Buy milk", "Refactor the entire billing subsystem end to end"]. */
  lemma LegacyExample(today: string)
    ensures
      var r := UpgradeSaved([Legacy("Buy milk"), Legacy("Refactor the entire billing subsystem end to end")], today);
      && |r| == 2
      && r[0] == Task("Buy milk", false, Low, today, "")
      && r[1] == Task("Refactor the entire billing subsystem end to end", false, High, today, "")
  {
  }

  // ---------------------------------------------------------------------------
  // Analytics

  /** `tasks.filter((t) => t.done)`. */
  function DoneTasks(tasks: seq<Task>): (r: seq<Task>)
    ensures |r| <= |tasks|
    ensures forall k :: 0 <= k < |r| ==> r[k].done && r[k] in tasks
    ensures |r| == |tasks| <==> forall k :: 0 <= k < |tasks| ==> tasks[k].done
  {
    if tasks == [] then []
    else (if tasks[0].done then [tasks[0]] else []) + DoneTasks(tasks[1..])
  }

  /** `completed`: how many tasks are done. */
  function Completed(tasks: seq<Task>): (n: nat)
    ensures n <= |tasks|
  {
    |DoneTasks(tasks)|
  }

  /** `pending = tasks.length - completed`. */
  function Pending(tasks: seq<Task>): (n: nat)
    ensures Completed(tasks) + n == |tasks|
  {
    |tasks| - Completed(tasks)
  }

  /** Filtering distributes over concatenation. */
  lemma {:induction false} DoneTasksAppend(a: seq<Task>, b: seq<Task>)
    ensures DoneTasks(a + b) == DoneTasks(a) + DoneTasks(b)
  {
    if a == [] {
      assert a + b == b;
    } else {
      var ab := a + b;
      assert ab[0] == a[0];
      assert ab[1..] == a[1..] + b;
      DoneTasksAppend(a[1..], b);
      assert DoneTasks(ab) == (if a[0].done then [a[0]] else []) + (DoneTasks(a[1..]) + DoneTasks(b));
    }
  }

  /** Splitting the list at position `i` splits the count of completed tasks. */
  lemma CompletedSplit(tasks: seq<Task>, i: nat)
    requires i < |tasks|
    ensures Completed(tasks) == Completed(tasks[..i]) + (if tasks[i].done then 1 else 0) + Completed(tasks[i + 1..])
  {
    assert tasks == tasks[..i] + ([tasks[i]] + tasks[i + 1..]);
    DoneTasksAppend(tasks[..i], [tasks[i]] + tasks[i + 1..]);
    DoneTasksAppend([tasks[i]], tasks[i + 1..]);
  }

  /** The counts depend only on the `done` flags, position by position. */
  lemma {:induction false} CompletedSameFlags(a: seq<Task>, b: seq<Task>)
    requires |a| == |b|
    requires forall k :: 0 <= k < |a| ==> a[k].done == b[k].done
    ensures Completed(a) == Completed(b)
  {
    if a != [] {
      CompletedSameFlags(a[1..], b[1..]);
    }
  }

  // ---------------------------------------------------------------------------
  // Overdue

  /**
   * `isOverdue(t)`: a due date is set, the task is not done, and the due date,
   * as the date library reads it, lies before `now`. `parseDate` stands for
   * `new Date(...)`; None is an invalid date, which compares false.
   */
  function IsOverdue(t: Task, parseDate: string -> Option<int>, now: int): (r: bool)
    ensures r ==> !t.done && t.dueDate != ""
    ensures r ==> parseDate(t.dueDate).Some?
  {
    t.dueDate != "" && !t.done && parseDate(t.dueDate).Some? && parseDate(t.dueDate).value < now
  }
}
