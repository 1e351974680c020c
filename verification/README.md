# To-do list state, modelled in Dafny

This project models the state logic of a browser to-do list. The app is a
single React component, `todo-ass-4-main/src/App.jsx`. It keeps an ordered
list of task records `{id, text, deadline, done}` and changes that list with
these handlers:

- add, delete, edit and toggle;
- a view filter (`all`, `active`, `overdue`, `done`);
- a drag-and-drop reorder that works on the visible list;
- a reminder timer that alerts for deadlines less than one minute away.

Everything here is pure Dafny. Each handler is a function from the old list
to the new one. Data that the component reads from outside becomes a
parameter:

- the clock: `now` and the new task's `id`;
- the prompt answer: `Option<string>`, where `None` means cancelled;
- the form's deadline field: `Option<int>`, where `None` means empty;
- the drag library's indices.

Modules, one per component of the app:

- `Seqs` (seqs.dfy): array `filter`, `map` and the two `splice` calls of a drag, plus a subsequence predicate.
- `Tasks` (tasks.dfy): the `Task` record and the store invariant that ids are unique.
- `Store` (store.dfy): the add, delete, edit and toggle handlers, plus runs of user actions.
- `Views` (views.dfy): the overdue predicate, the four filter views and the subtitle counts.
- `Reminder` (reminder.dfy): which tasks a timer tick alerts for.
- `Reorder` (reorder.dfy): the drag-end handler.
- `Scenarios` (scenarios.dfy): two walks through the handlers, starting from an empty list.
- `Wrappers` (wrappers.dfy): `Option`.

Three facts about the code shape the model:

- Reminders also go to done tasks: lines 22-24 have no `done` check
  (`Reminder.RemindsDoneTasks`).
- Nothing makes ids unique: line 35 takes the id from the clock. So
  `Store.Add` takes the id as a parameter, and freshness is a precondition
  only of the lemmas that need unique ids.
- Loading is not modelled. `JSON.parse` at line 7 throws on malformed data,
  so the model makes no claim about a fallback.

## Model

| member | source | states |
|---|---|---|
| Store.Add | todo-ass-4-main/src/App.jsx:32-40 | An empty text or an empty deadline leaves the list unchanged. Otherwise the old list stays as a prefix, and exactly one task follows it with the given id, text and deadline and `done` false. |
| Store.Delete | todo-ass-4-main/src/App.jsx:45-46 | The result is a subsequence of the list. It holds every task whose id differs as often as the list did, and no task with the id. An absent id gives back the same list. |
| Store.Edit | todo-ass-4-main/src/App.jsx:48-52 | Length, order, ids, deadlines and done flags are unchanged. A text changes only on a task with that id, and only when the answer is present and non-empty. It then becomes that answer. |
| Store.Toggle | todo-ass-4-main/src/App.jsx:54-55 | Length, order, ids, texts and deadlines are unchanged. `done` flips exactly on the tasks with that id. |
| Store.ToggleTwice | todo-ass-4-main/src/App.jsx:54-55 | Toggling the same id twice gives back the original list. |
| Store.ToggleAbsent | todo-ass-4-main/src/App.jsx:54-55 | Toggling an id that no task has is the identity. |
| Store.EditAbsent | todo-ass-4-main/src/App.jsx:48-52 | Editing an id that no task has is the identity, whatever the answer. |
| Store.EditTwice | todo-ass-4-main/src/App.jsx:48-52 | Repeating an edit with the same answer changes nothing further. |
| Store.AddKeepsUniqueIds | todo-ass-4-main/src/App.jsx:32-40 | Adding with an id that no task has keeps ids unique. |
| Store.DeleteUndoesAdd | todo-ass-4-main/src/App.jsx:32-46 | Deleting the id that an add just handed out restores the list, if that id was fresh. |
| Store.DeleteEditToggleKeepUniqueIds | todo-ass-4-main/src/App.jsx:45-55 | Delete, edit and toggle keep ids unique. |
| Store.ApplyIds | todo-ass-4-main/src/App.jsx:32-55 | A single action introduces no id other than the one an add hands out. |
| Store.RunKeepsUniqueIds | todo-ass-4-main/src/App.jsx:32-55 | Any sequence of add, delete, edit and toggle actions keeps ids unique, if every add draws a fresh id. |
| Store.RunIdsComeFromAdds | todo-ass-4-main/src/App.jsx:32-55 | After any sequence of actions, every id was present at the start or was handed out by one of the adds. |
| Views.ModeOf | todo-ass-4-main/src/App.jsx:60-65 | The strings "active", "overdue" and "done" select their own views, each exactly for that string. Every other string shows everything. |
| Views.IsOverdue | todo-ass-4-main/src/App.jsx:57-58 | A done task is never overdue. A task that is not done is overdue exactly when its deadline is strictly before `now`. |
| Views.Shows | todo-ass-4-main/src/App.jsx:60-64 | `all` shows every task. `active` shows exactly the undone tasks whose deadline is not before `now`. `overdue` shows exactly the undone tasks whose deadline is before `now`. `done` shows exactly the done tasks. |
| Views.Visible | todo-ass-4-main/src/App.jsx:57-65 | A view is an order-preserving subsequence of the list. Every task in it passes the view's test. It holds each passing task as often as the list does. |
| Views.Hidden | todo-ass-4-main/src/App.jsx:60-65 | The tasks a view hides form an order-preserving subsequence. It holds each failing task as often as the list does. |
| Views.ShownAndHidden | todo-ass-4-main/src/App.jsx:60-65 | The shown tasks and the hidden tasks together make up the list, as a multiset. |
| Views.DoneNeverOverdue | todo-ass-4-main/src/App.jsx:57-58 | A done task never appears in the overdue view. |
| Views.ExactlyOneView | todo-ass-4-main/src/App.jsx:57-65 | Each task passes exactly one of the active, overdue and done tests. |
| Views.ViewsPartition | todo-ass-4-main/src/App.jsx:57-65 | For one `now`, the active, overdue and done views are pairwise disjoint. Together they hold the list's tasks with their multiplicities, and their lengths add up to the list's length. |
| Views.AllShowsEverything | todo-ass-4-main/src/App.jsx:60-65 | The `all` view is the whole list, in order. |
| Views.OverdueCount | todo-ass-4-main/src/App.jsx:80 | The overdue count equals the length of the overdue view. |
| Views.DoneCount | todo-ass-4-main/src/App.jsx:81 | Its own contract only bounds the count by the number of tasks. That it equals the length of the done view is stated by Views.DoneCountIsDoneView. |
| Views.DoneCountIsDoneView | todo-ass-4-main/src/App.jsx:81 | The done count equals the length of the done view, at any time. |
| Views.CountsWithinTotal | todo-ass-4-main/src/App.jsx:80-81 | The overdue count plus the done count is at most the number of tasks. |
| Reminder.DueSoon | todo-ass-4-main/src/App.jsx:23-24 | A tick alerts for a task exactly when its deadline lies strictly between `now` and `now + 60000`. The done flag plays no part. |
| Reminder.Reminders | todo-ass-4-main/src/App.jsx:20-27 | A tick alerts for a subsequence of the list. Every alerted task has `0 < deadline - now < 60000`. Each such task is alerted for as often as it occurs, in list order. |
| Reminder.RemindsDoneTasks | todo-ass-4-main/src/App.jsx:22-26 | In any list, a done task whose deadline lies strictly between `now` and `now + 60000` gets an alert. The done flag does not suppress it. |
| Reminder.RemindsDoneExample | todo-ass-4-main/src/App.jsx:22-26 | For one concrete list holding a single done task due in one second, the tick alerts for exactly that task. |
| Reminder.RemindedUndoneIsActive | todo-ass-4-main/src/App.jsx:22-24 | Every alerted task that is not done is shown by the active view. |
| Reminder.NoReminderWhenOverdue | todo-ass-4-main/src/App.jsx:22-24 | No alert is ever for a task in the overdue view. |
| Seqs.Move | todo-ass-4-main/src/App.jsx:70-72 | Removing at `from` and inserting at `to` keeps the length and the multiset. The moved element lands at `to`. The remaining elements keep their order. |
| Seqs.MoveBack | todo-ass-4-main/src/App.jsx:70-72 | Dragging back from `to` to `from` undoes a drag. |
| Seqs.MoveInPlace | todo-ass-4-main/src/App.jsx:70-72 | Dropping an element where it was picked up changes nothing. |
| Reorder.Rest | todo-ass-4-main/src/App.jsx:74-75 | The tasks kept after the dragged block form an order-preserving subsequence of the list. It holds no task whose id is in the given set, and every other task as often as the list does. |
| Reorder.DragEnd | todo-ass-4-main/src/App.jsx:67-78 | With no destination the list is unchanged. Otherwise the first places, as many as the visible list has, hold the visible list after the move, in order. The places after them hold exactly the tasks whose id no visible task has, in list order. |
| Reorder.VisibleIdsMatchShows | todo-ass-4-main/src/App.jsx:74-75 | With unique ids, a task's id is among the visible ids exactly when the view shows the task. |
| Reorder.HiddenMoveAsBlock | todo-ass-4-main/src/App.jsx:67-77 | With unique ids, the result is the moved visible list followed by the hidden tasks, in their original relative order. |
| Reorder.DragEndPermutes | todo-ass-4-main/src/App.jsx:67-77 | With unique ids, the new list is a permutation of the old one. |
| Reorder.DragEndKeepsUniqueIds | todo-ass-4-main/src/App.jsx:67-77 | With unique ids, the new list still has unique ids. |
| Reorder.DragEndUnderAll | todo-ass-4-main/src/App.jsx:60-77 | Under the `all` view, a drag is the same move applied to the whole list, at the same indices. |
| Reorder.SharedIdIsDropped | todo-ass-4-main/src/App.jsx:74-75 | In any list, under any view and for any drag, a hidden task whose id a visible task also has is absent from the new list. This is why the lemmas above need unique ids. |
| Reorder.SharedIdDropExample | todo-ass-4-main/src/App.jsx:74-75 | For one concrete two-task list under the `done` view, a drag returns only the done task. The undone task with the same id is lost. |
| Scenarios.AddToggleDelete | todo-ass-4-main/src/App.jsx:32-65 | After adding one task and toggling it, the task is done and the overdue view is empty. Deleting it then empties the list. |
| Scenarios.PastDeadlineIsOverdue | todo-ass-4-main/src/App.jsx:32-65 | A task added with a past deadline is exactly the overdue view, and the active view is empty. |

## Left out

- Rendering, CSS classes, the dark-mode toggle and the filter-button labels (lines 83-194) are left out. They are presentation only.
- Persistence through `localStorage` and `JSON.parse`/`JSON.stringify` (lines 6-8, 14-16) is left out. It is browser I/O through a foreign serialiser. Loading and the storage round trip are not modelled.
- Timer scheduling (`setInterval` every 30 seconds, `clearInterval`) and the `alert` call (lines 19-30) are left out. Only the choice of which tasks a tick alerts for is modelled.
- `prompt` (line 49) and the drag-and-drop library are external collaborators. Only the values they hand back are modelled: an optional string and two indices.
- Date handling is left out: `new Date(...)` parsing of the deadline string, and `Date.now()`. Deadlines and `now` are integers in milliseconds, and ids are supplied by the caller. A malformed deadline string, whose time would be NaN, is not modelled.
- Each filter evaluation uses a single `now`. The component calls `new Date()` once per task, so during one render its clock can move between tasks.
- Resetting the form fields after an add (lines 41-42) is left out. Those fields are input state, not task state.
- Reorder.DragEnd: the contract does not assert a permutation. Without unique ids the handler can drop tasks (see Reorder.SharedIdIsDropped). The permutation is proved in Reorder.DragEndPermutes under the unique-ids precondition.
- Views.DoneCount: its own contract only bounds the count by the number of tasks. A function contract cannot quantify over every `now` without a lemma, so the equality with the done view is proved separately in Views.DoneCountIsDoneView.
