# Smart Productivity To-Do: a Dafny model of the task board's logic

The task board is one React component (`src/App.js`). Under its rendering there is
a small amount of sequential logic, and this project models that logic:

- **Priority engine.** A task's tier comes from the length of its text: longer than 30
  characters is High, longer than 15 is Medium, anything else is Low. A weight table
  (High 3, Medium 2, Low 1) orders the tiers.
- **Display order.** The list is shown as `[...tasks].sort(...)`, descending by weight.
  ECMAScript requires `Array.prototype.sort` to be stable, so the displayed list is
  uniquely determined. It is modelled by a stable insertion sort, proved to be:
  - a permutation of the store;
  - non-increasing in weight;
  - stable;
  - equal to "every High task, then every Medium task, then every Low task, each in store order".
- **Task store.** An ordered list of `{text, done, priority, date, dueDate}` records with
  add, toggle, priority override, edit and delete. Each is a pure function on the list,
  with "nothing else changes" contracts and lemmas relating the operations. The class
  `Store.TaskList` holds the component's list and both input fields, and performs the
  same updates in place.
- **Loading.** On load, legacy saved entries (plain strings) are upgraded to full records.
- **Analytics.** The completed and pending counts.
- **Overdue test.** Whether a task counts as overdue.
- **Focus timer.** Its state is `timeLeft`, `running` and the focused task. One interval
  firing is a deterministic step. The buttons are methods of `Focus.FocusPanel`. The
  `m:ss` rendering is proved injective through a parser that reads the display back.

Modules:

- `Wrappers` provides `Option`.
- `JsText` models `String.prototype.trim` with ECMAScript's white-space set.
- `PriorityEngine`, `Tasks`, `Store`, `DisplayOrder`, `Focus` and `Countdown` model the parts above.

Dates and the clock are parameters:

- `today` is the display string of `new Date().toDateString()`.
- `parseDate` and `now` stand for `new Date(...)` and the current instant.

The `prompt` reply is an `Option<string>` parameter. `None` stands for Cancel.

## Model

| member | source | states |
|---|---|---|
| PriorityEngine.Classify | src/App.js:18-22 | High iff the text is longer than 30, Medium iff its length is in (15, 30], Low iff it is at most 15: each tier in both directions |
| PriorityEngine.Weight | src/App.js:25-29 | every tier has a weight between 1 and 3 |
| PriorityEngine.WeightRanksTiers | src/App.js:25-29 | equal weights mean equal tiers, and Low < Medium < High |
| PriorityEngine.ClassifyMonotone | src/App.js:18-22 | a longer text never gets a lower tier |
| JsText.TrimStart | src/App.js:90 | the result is a suffix, everything removed is white space, and it does not start with white space |
| JsText.TrimEnd | src/App.js:90 | the result is a prefix, everything removed is white space, and it does not end with white space |
| JsText.Trim | src/App.js:90 | `text.trim()` is empty exactly when the text is white space only, empty included (so `!task.trim()` tests blankness, both directions); otherwise it neither starts nor ends with white space |
| Tasks.NewTask | src/App.js:93-99 | a fresh record is not done, has the computed tier, today's date and the given text and due date |
| Tasks.UpgradeEntry | src/App.js:39-47 | the `map` callback: a string becomes an undone record of that text with the computed tier, today's date and no due date; a record is kept as it is |
| Tasks.UpgradeSaved | src/App.js:38-48 | same length; a saved record passes through unchanged; a string becomes an undone record with the computed tier, today's date and no due date |
| Tasks.LoadTasks | src/App.js:36-50 | a stored value that is not an array leaves the list as it was; an array gives one task per entry, each the upgraded entry at the same position |
| Tasks.AsEntries | src/App.js:57 | the save writes every task as a full record, in order |
| Tasks.LoadAfterSave | src/App.js:36-57 | loading what was saved gives back exactly the saved list |
| Tasks.LegacyExample | src/App.js:38-48 | the legacy list ["Buy milk", a 48-character text] loads as a Low and a High undone record |
| Tasks.DoneTasks | src/App.js:141 | the filter keeps only done tasks from the list; it keeps all of them iff every task is done |
| Tasks.Completed | src/App.js:141 | the completed count never exceeds the number of tasks |
| Tasks.Pending | src/App.js:142 | completed + pending equals the number of tasks |
| Tasks.DoneTasksAppend | src/App.js:141 | the done filter distributes over concatenation |
| Tasks.CompletedSplit | src/App.js:141 | the completed count splits around any position |
| Tasks.CompletedSameFlags | src/App.js:141-142 | the counts depend only on the done flags |
| Tasks.IsOverdue | src/App.js:137-138 | an overdue task has a due date, is not done, and its due date parses |
| Store.AddTask | src/App.js:89-103 | blank text leaves the list unchanged; otherwise the list grows by one, earlier records are kept, and the new last record is the fresh undone record for the text and due date |
| Store.ToggleDone | src/App.js:105-109 | same length, `done` flipped at i, every other field of i kept, every other record unchanged |
| Store.UpdatePriority | src/App.js:83-87 | same length, the tier at i set to the chosen one without consulting the text, every other record unchanged |
| Store.EditTask | src/App.js:111-119 | a cancelled or empty reply changes nothing; otherwise the text at i becomes the reply and the tier is recomputed from it, done, date and due date are kept, other records unchanged |
| Store.DeleteTask | src/App.js:121-123 | for a position in the list the result is the list without that record, order kept; any other number keeps the list |
| Store.ToggleTwice | src/App.js:105-109 | toggling the same position twice restores the list |
| Store.ToggleCounts | src/App.js:105-109 | a toggle moves exactly one task between completed and pending |
| Store.AddCounts | src/App.js:89-103 | an accepted add adds one pending task and no completed one |
| Store.DeleteUndoesAdd | src/App.js:121-123 | deleting the position just appended restores the list |
| Store.DeleteCounts | src/App.js:121-123 | a delete removes the record from exactly the count it was in |
| Store.DeleteRemovesOne | src/App.js:121-123 | a delete at a position in the list removes exactly one copy of that record and nothing else |
| Store.DeleteShifts | src/App.js:121-123 | a delete shortens the list by one, keeps earlier records and shifts later ones down by one |
| Store.UpdatePriorityProperties | src/App.js:83-87 | an override keeps the counts and is undone by overriding with the old tier |
| Store.EditDiscardsOverride | src/App.js:111-119 | an edit recomputes the tier, so an earlier override has no effect on the result; counts are kept |
| Store.EditAcceptsBlankReply | src/App.js:111-119 | a white-space reply is accepted by edit although add rejects the same text |
| Store.TaskList.constructor | src/App.js:7-9 | the component starts with no tasks and empty inputs |
| Store.TaskList.Load | src/App.js:36-50 | the list becomes the loaded list of the decoded stored value |
| Store.TaskList.SetDraft | src/App.js:166 | the text input's handler stores the typed text |
| Store.TaskList.SetDraftDue | src/App.js:173 | the date picker's handler stores the chosen date |
| Store.TaskList.Add | src/App.js:89-103 | the list becomes the add result; the inputs are cleared on success and kept when the text is blank |
| Store.TaskList.Toggle | src/App.js:105-109 | the copy-then-assign update leaves the list equal to the toggle result |
| Store.TaskList.SetPriority | src/App.js:83-87 | the copy-then-assign update leaves the list equal to the override result |
| Store.TaskList.Edit | src/App.js:111-119 | the two in-place assignments leave the list equal to the edit result |
| Store.TaskList.Delete | src/App.js:121-123 | the list becomes the filter result |
| DisplayOrder.Insert | src/App.js:132-134 | inserting adds exactly the one element to the multiset |
| DisplayOrder.InsertSorted | src/App.js:132-134 | inserting into a list sorted by weight keeps it sorted |
| DisplayOrder.SortDesc | src/App.js:132-134 | the sort is a permutation and non-increasing in weight |
| DisplayOrder.InsertWeightClass | src/App.js:132-134 | inserting leaves every other weight class as it was and puts the element in front of its own class |
| DisplayOrder.SortStable | src/App.js:132-134 | the sort is stable: each weight class keeps its order |
| DisplayOrder.SortDistinct | src/App.js:132-134 | sorting a list without repeats gives a list without repeats |
| DisplayOrder.WeightClassIsTier | src/App.js:25-29 | the tasks of one weight are exactly the tasks of one tier |
| DisplayOrder.SortedTasks | src/App.js:132-134 | the displayed list is a permutation of the store, non-increasing in weight, with every tier in store order |
| DisplayOrder.DisplayOrderByTier | src/App.js:132-134 | the displayed list is every High task, then every Medium task, then every Low task, each in store order |
| DisplayOrder.TwoTaskDisplay | src/App.js:132-134 | a Low task stored before a High one is displayed after it |
| DisplayOrder.RowsShowStore | src/App.js:192-199 | each row shows the store record at the row's sorted position index, and no position is shown twice |
| DisplayOrder.StoreIndexOfRow | src/App.js:192-216 | the store position of a row holds exactly the record that row displays |
| DisplayOrder.StoreIndexOfRowInjective | src/App.js:192-216 | different rows map to different store positions |
| DisplayOrder.ToggleAtRow | src/App.js:213 | toggling the store record behind a row flips that row and no other, and the display order is kept |
| DisplayOrder.DeleteAtRow | src/App.js:216 | deleting the store record behind a row leaves a display one row shorter that has lost exactly the record that row showed |
| DisplayOrder.RowIndexMissesDisplayedTask | src/App.js:192-216 | as written: with a Low task stored before a High one, row 0 shows the High task, but toggling position 0 flips the Low one |
| Focus.TickStep | src/App.js:68-75 | above 1 the counter drops by one and `running` is kept; at 1 or below it resets to 1500 and stops |
| Focus.TickKeepsRange | src/App.js:68-75 | a tick keeps the counter in [1, 1500], never starts the timer, and stops it only on completion |
| Focus.Completions | src/App.js:69-72 | at most one completion per tick |
| Focus.TicksKeepRange | src/App.js:65-78 | any number of ticks keeps the counter in [1, 1500] |
| Focus.CountsDown | src/App.js:65-78 | from a started session the first 1499 ticks count down by one each, keep running and complete nothing |
| Focus.FullSession | src/App.js:65-78 | 1500 ticks of a started session return to 1500, stopped; the timer runs until the last tick, and exactly one tick completes |
| Focus.FocusPanel.constructor | src/App.js:10-15 | the panel starts at 25:00, stopped, with nothing focused |
| Focus.FocusPanel.StartFocus | src/App.js:125-129 | focusing sets the task, a full 1500-second counter and a stopped timer |
| Focus.FocusPanel.Start | src/App.js:185 | Start sets the timer running, keeps the counter in range and changes nothing else |
| Focus.FocusPanel.Pause | src/App.js:186 | Pause stops the timer, keeps the counter in range and changes nothing else |
| Focus.FocusPanel.Exit | src/App.js:187 | Exit clears the focused task only, so the counter stays in range |
| Focus.FocusPanel.Tick | src/App.js:68-75 | a firing updates the panel exactly as the tick step, keeps the counter in range, and reports completion |
| Countdown.NatToString | src/App.js:81 | `toString` yields at least one decimal digit, with no leading zero |
| Countdown.NatToStringLength | src/App.js:81 | one digit iff the number is below 10; two digits from 10 to 99 |
| Countdown.ParseNatToString | src/App.js:81 | the digits read back as the number |
| Countdown.PadStart | src/App.js:81 | `padStart` yields the wider of the width and the length, ends with the string and fills the front |
| Countdown.PaddedSeconds | src/App.js:81 | seconds below 60 pad to exactly two digits that read back as the seconds |
| Countdown.Clock | src/App.js:80-81 | the rendering is the minutes' digits, a colon, then two digits reading back as the seconds |
| Countdown.ClockRoundTrip | src/App.js:80-81 | reading a rendering back gives minutes * 60 + seconds |
| Countdown.Format | src/App.js:80-81 | reading `format(s)` back gives s |
| Countdown.FormatInjective | src/App.js:80-81 | different counts render differently |
| Countdown.TwoDigitString | src/App.js:81 | below 100, `toString` is the tens digit (if any) then the units digit |
| Countdown.SecondsDigits | src/App.js:81 | padded seconds are the tens digit then the units digit |
| Countdown.FormatDigits | src/App.js:80-81 | below 100 minutes, `format(s)` is s / 60 unpadded, a colon, then s % 60 as two digits |
| Countdown.FormatZero | src/App.js:80-81 | 0 renders as "0:00" |
| Countdown.FormatSixtyFive | src/App.js:80-81 | 65 renders as "1:05" |
| Countdown.FormatFullSession | src/App.js:80-81 | 1500 renders as "25:00" |

## Left out

- React hooks, JSX rendering, the CSS class choice and the dark-mode toggle: plumbing with no logic beyond a flip (src/App.js:154-227).
- `localStorage` and `JSON.parse`/`JSON.stringify`: browser I/O. Loading starts from an already-decoded value, a list of entries, and anything not an array is `None`.
- A `JSON.parse` that throws on corrupt storage is not modelled.
- Saved array elements that are neither strings nor task records are not modelled. The code passes any such element through unchanged.
- `new Date()`, `toDateString()` and the date comparison: library calls. The day and the current instant are parameters, and `new Date(dueDate)` is a function parameter whose `None` stands for an invalid date.
- Tasks.IsOverdue: only states what overdue implies. The comparison of two parsed dates is the date library's.
- `setInterval`/`clearInterval`, `alert` and `prompt`: runtime facilities. One firing is `Focus.FocusPanel.Tick`, with `completed` standing for the alert, and the prompt's reply is a parameter.
- The one-interval-per-run lifecycle of the effect (src/App.js:65-78) is not modelled. The model does not check that a firing happens only while `running` holds.
- The `react-chartjs-2` Bar chart: a foreign library. It only displays the two counts.
- PriorityEngine.Classify: measures length in characters. JavaScript's `length` counts UTF-16 code units, so a character outside the Basic Multilingual Plane counts once here and twice in the source.
- Store.ToggleDone, Store.UpdatePriority, Store.EditTask: require a position inside the list. The handlers are only reachable from a rendered row, and out of range the source would throw on `copy[i]`.
- Shallow-copy aliasing: `[...tasks]` copies the array but shares the records, and `copy[i].done = ...` mutates the shared record. Here records are values, so earlier lists, and a focused task captured by `startFocus`, are not changed through the alias.
- DisplayOrder.DeleteAtRow: states what the display loses as a multiset. It does not state that the remaining rows keep their order.
- The corrected row-to-store addressing is proved for toggle and delete only. The override and the edit change a record's tier, and so can move it to another row; they are not restated per row.
- Countdown.Format: defined on non-negative counts only. The counter never leaves [1, 1500], so the sign behaviour of `%` on negative counts does not arise.
- The timer's domain: the code resets the counter when it reaches 1, so `timeLeft` never becomes 0 and `Focus.InRange` is 1..1500.

## Findings

| source | as written | input that shows it | evidently intended | confidence | as-written member | corrected member |
|---|---|---|---|---|---|---|
| src/App.js:192-216 | each row of `sortedTasks` passes its row position `i` to `toggleDone`, `updatePriority`, `editTask` and `deleteTask`, which index the unsorted store | store ["Buy milk" (Low), a 48-character text (High)]; row 0 shows the High task; pressing its ✔ flips "Buy milk", which row 1 shows | the handlers act on the record the row displays, at that record's store position | not executed | DisplayOrder.RowIndexMissesDisplayedTask | DisplayOrder.ToggleAtRow |

`DisplayOrder.StoreIndexOfRow` translates a row to the store position of the record it
shows. `DisplayOrder.ToggleAtRow` proves that toggling at that position flips exactly
the displayed row. `DisplayOrder.DeleteAtRow` proves that deleting at that position
removes exactly the displayed record.
