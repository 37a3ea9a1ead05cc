/**
 * The task store: an ordered list of records addressed by position in the
 * store (not in the sorted display). Every operation is a function from the
 * old list to the new one; the class `TaskList` holds the component's list
 * and the two input fields and performs the same updates in place.
 */
module Store {
  import opened Wrappers
  import opened JsText
  import opened PriorityEngine
  import opened Tasks

  /** `addTask`: text that trims to "" is ignored; otherwise an undone record is appended. */
  function AddTask(tasks: seq<Task>, text: string, dueDate: string, today: string): (r: seq<Task>)
    ensures AllSpace(text) ==> r == tasks
    ensures !AllSpace(text) ==>
              && |r| == |tasks| + 1
              && r[..|tasks|] == tasks
              && r[|tasks|] == NewTask(text, dueDate, today)
  {
    if Trim(text) == "" then tasks
    else tasks + [NewTask(text, dueDate, today)]
  }

  /** `toggleDone(i)`: flips `done` at store position `i` and changes nothing else. */
  function ToggleDone(tasks: seq<Task>, i: nat): (r: seq<Task>)
    requires i < |tasks|
    ensures |r| == |tasks|
    ensures r[i].done == !tasks[i].done
    ensures r[i] == tasks[i].(done := r[i].done)
    ensures forall k :: 0 <= k < |tasks| && k != i ==> r[k] == tasks[k]
  {
    tasks[i := tasks[i].(done := !tasks[i].done)]
  }

  /** `updatePriority(i, p)`: a manual override; the text is not consulted. */
  function UpdatePriority(tasks: seq<Task>, i: nat, p: Priority): (r: seq<Task>)
    requires i < |tasks|
    ensures |r| == |tasks|
    ensures r[i] == tasks[i].(priority := p)
    ensures forall k :: 0 <= k < |tasks| && k != i ==> r[k] == tasks[k]
  {
    tasks[i := tasks[i].(priority := p)]
  }

  /**
   * `editTask(i)` given the prompt's reply: a cancelled (None) or empty reply
   * changes nothing; any other reply, white space included, replaces the text
   * and recomputes the priority, keeping `done`, `date` and `dueDate`.
   */
  function EditTask(tasks: seq<Task>, i: nat, reply: Option<string>): (r: seq<Task>)
    requires i < |tasks|
    ensures |r| == |tasks|
    ensures reply == None || reply == Some("") ==> r == tasks
    ensures reply.Some? && reply.value != "" ==>
              r[i] == tasks[i].(text := reply.value, priority := Classify(reply.value))
    ensures forall k :: 0 <= k < |tasks| && k != i ==> r[k] == tasks[k]
  {
    match reply
    case None => tasks
    case Some(newText) =>
      if newText == "" then tasks
      else tasks[i := tasks[i].(text := newText, priority := Classify(newText))]
  }

  /**
   * `deleteTask(i)`, i.e. `tasks.filter((_, idx) => idx !== i)`: keeps every
   * record whose position differs from `i`; a position outside the list keeps them all.
   */
  function DeleteTask(tasks: seq<Task>, i: int): (r: seq<Task>)
    ensures 0 <= i < |tasks| ==> r == tasks[..i] + tasks[i + 1..]
    ensures !(0 <= i < |tasks|) ==> r == tasks
  {
    if tasks == [] then []
    else (if i == 0 then [] else [tasks[0]]) + DeleteTask(tasks[1..], i - 1)
  }

  // ---------------------------------------------------------------------------
  // Properties relating the operations

  /** Toggling twice restores the list. */
  lemma ToggleTwice(tasks: seq<Task>, i: nat)
    requires i < |tasks|
    ensures ToggleDone(ToggleDone(tasks, i), i) == tasks
  {
  }

  /** Toggling moves exactly one task between completed and pending. */
  lemma ToggleCounts(tasks: seq<Task>, i: nat)
    requires i < |tasks|
    ensures Completed(ToggleDone(tasks, i)) == Completed(tasks) + (if tasks[i].done then -1 else 1)
    ensures Pending(ToggleDone(tasks, i)) == Pending(tasks) + (if tasks[i].done then 1 else -1)
  {
    var r := ToggleDone(tasks, i);
    CompletedSplit(tasks, i);
    CompletedSplit(r, i);
    assert r[..i] == tasks[..i];
    assert r[i + 1..] == tasks[i + 1..];
  }

  /** Adding a task adds one pending task and no completed one. */
  lemma AddCounts(tasks: seq<Task>, text: string, dueDate: string, today: string)
    requires !AllSpace(text)
    ensures Completed(AddTask(tasks, text, dueDate, today)) == Completed(tasks)
    ensures Pending(AddTask(tasks, text, dueDate, today)) == Pending(tasks) + 1
  {
    var r := AddTask(tasks, text, dueDate, today);
    assert r == tasks + [NewTask(text, dueDate, today)];
    DoneTasksAppend(tasks, [NewTask(text, dueDate, today)]);
  }

  /** Deleting the task just added restores the list. */
  lemma DeleteUndoesAdd(tasks: seq<Task>, text: string, dueDate: string, today: string)
    requires !AllSpace(text)
    ensures DeleteTask(AddTask(tasks, text, dueDate, today), |tasks|) == tasks
  {
    var r := AddTask(tasks, text, dueDate, today);
    assert r[..|tasks|] == tasks;
  }

  /** Deleting a task removes it from exactly one of the two counts. */
  lemma DeleteCounts(tasks: seq<Task>, i: nat)
    requires i < |tasks|
    ensures Completed(DeleteTask(tasks, i)) == Completed(tasks) - (if tasks[i].done then 1 else 0)
    ensures Pending(DeleteTask(tasks, i)) == Pending(tasks) - (if tasks[i].done then 0 else 1)
  {
    CompletedSplit(tasks, i);
    DoneTasksAppend(tasks[..i], tasks[i + 1..]);
  }

  /** Deleting a position removes one copy of its record and nothing else. */
  lemma DeleteRemovesOne(tasks: seq<Task>, i: nat)
    requires i < |tasks|
    ensures |DeleteTask(tasks, i)| == |tasks| - 1
    ensures multiset(DeleteTask(tasks, i)) + multiset{tasks[i]} == multiset(tasks)
  {
    RemoveOne(tasks, i);
  }

  /** Cutting out one position of a sequence removes one copy of its element. */
  lemma RemoveOne<T>(s: seq<T>, i: nat)
    requires i < |s|
    ensures multiset(s[..i] + s[i + 1..]) + multiset{s[i]} == multiset(s)
  {
    assert s == s[..i] + [s[i]] + s[i + 1..];
  }

  /** Deleting shifts every later record down by one and keeps every earlier one. */
  lemma DeleteShifts(tasks: seq<Task>, i: nat)
    requires i < |tasks|
    ensures |DeleteTask(tasks, i)| == |tasks| - 1
    ensures forall k :: 0 <= k < i ==> DeleteTask(tasks, i)[k] == tasks[k]
    ensures forall k :: i <= k < |tasks| - 1 ==> DeleteTask(tasks, i)[k] == tasks[k + 1]
  {
  }

  /** A manual override changes neither count; it is undone by overriding again with the old tier. */
  lemma UpdatePriorityProperties(tasks: seq<Task>, i: nat, p: Priority)
    requires i < |tasks|
    ensures Completed(UpdatePriority(tasks, i, p)) == Completed(tasks)
    ensures UpdatePriority(UpdatePriority(tasks, i, p), i, tasks[i].priority) == tasks
  {
    CompletedSameFlags(UpdatePriority(tasks, i, p), tasks);
  }

  /** Editing the text discards an earlier manual override: the tier is recomputed from the new text. */
  lemma EditDiscardsOverride(tasks: seq<Task>, i: nat, p: Priority, newText: string)
    requires i < |tasks| && newText != ""
    ensures EditTask(UpdatePriority(tasks, i, p), i, Some(newText)) == EditTask(tasks, i, Some(newText))
    ensures Completed(EditTask(tasks, i, Some(newText))) == Completed(tasks)
  {
    CompletedSameFlags(EditTask(tasks, i, Some(newText)), tasks);
  }

  /** Unlike adding, editing accepts a reply made of white space only. */
  lemma EditAcceptsBlankReply(tasks: seq<Task>, i: nat)
    requires i < |tasks|
    ensures AddTask(tasks, " ", "", "") == tasks
    ensures EditTask(tasks, i, Some(" "))[i].text == " "
  {
  }

  // ---------------------------------------------------------------------------
  // The component's state

  /** The component's `tasks` list together with the text and due-date input fields. */
  class TaskList {
    var tasks: seq<Task>
    var draft: string
    var draftDue: string

    /** The initial state: no tasks, empty inputs. */
    constructor ()
      ensures tasks == [] && draft == "" && draftDue == ""
    {
      tasks, draft, draftDue := [], "", "";
    }

    /** The load effect, given the decoded stored value and the current day. */
    method Load(saved: Option<seq<Entry>>, today: string)
      modifies this`tasks
      ensures tasks == LoadTasks(saved, old(tasks), today)
    {
      if saved.Some? {
        tasks := UpgradeSaved(saved.value, today);
      }
    }

    /** The text input's change handler. */
    method SetDraft(text: string)
      modifies this`draft
      ensures draft == text
    {
      draft := text;
    }

    /** The date picker's change handler. */
    method SetDraftDue(date: string)
      modifies this`draftDue
      ensures draftDue == date
    {
      draftDue := date;
    }

    /** `addTask`: appends a record built from the inputs and clears them, unless the text is blank. */
    method Add(today: string)
      modifies this
      ensures tasks == AddTask(old(tasks), old(draft), old(draftDue), today)
      ensures AllSpace(old(draft)) ==> draft == old(draft) && draftDue == old(draftDue)
      ensures !AllSpace(old(draft)) ==> draft == "" && draftDue == ""
    {
      if Trim(draft) == "" {
        return;
      }
      tasks := tasks + [NewTask(draft, draftDue, today)];
      draft := "";
      draftDue := "";
    }

    /** `toggleDone(i)`: copies the list and flips the copy's record at `i`. */
    method Toggle(i: nat)
      requires i < |tasks|
      modifies this`tasks
      ensures tasks == ToggleDone(old(tasks), i)
    {
      var copy := tasks;
      copy := copy[i := copy[i].(done := !copy[i].done)];
      tasks := copy;
    }

    /** `updatePriority(i, p)`. */
    method SetPriority(i: nat, p: Priority)
      requires i < |tasks|
      modifies this`tasks
      ensures tasks == UpdatePriority(old(tasks), i, p)
    {
      var copy := tasks;
      copy := copy[i := copy[i].(priority := p)];
      tasks := copy;
    }

    /** `editTask(i)`, with the prompt's reply as a parameter. */
    method Edit(i: nat, reply: Option<string>)
      requires i < |tasks|
      modifies this`tasks
      ensures tasks == EditTask(old(tasks), i, reply)
    {
      if reply.None? || reply.value == "" {
        return;
      }
      var newText := reply.value;
      var copy := tasks;
      copy := copy[i := copy[i].(text := newText)];
      copy := copy[i := copy[i].(priority := Classify(newText))];
      tasks := copy;
    }

    /** `deleteTask(i)`. */
    method Delete(i: int)
      modifies this`tasks
      ensures tasks == DeleteTask(old(tasks), i)
    {
      tasks := DeleteTask(tasks, i);
    }
  }
}
