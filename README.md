# To-do list controller, modelled in Dafny

This project models the task-list bookkeeping of a browser to-do application.
Two React controllers own a list of tasks `{id, title, completed}`, an editing
cursor (`editingTodoId`, `editingTodoTitle`, where `""` means "not editing")
and a filter string:

- `src/TodoApp.tsx`, modelled as module `TodoApp`;
- its refactored twin `src/components/TodoTask.tsx`, modelled as module `TodoTask`.

Each controller adds, toggles, deletes and edits tasks through a REST store.
It derives a filtered view and a completion percentage. Two add boxes feed
titles to the controllers:

- `src/components/CardInputBox.tsx`, modelled as module `CardInputBox`;
- `src/components/CardInput.tsx`, modelled as module `CardInput`.

Each box is a one-field buffer that hands over its trimmed contents on Enter
or on blur, unless they are blank.

Layout:

- `results.dfy` (module `Results`): `Option`, and `Outcome` (`Success(value) | Failure`), the abstract result of a request.
- `text.dfy` (module `Text`): `Trim` and `IsBlank`. They strip exactly the characters that JavaScript's `String.prototype.trim` strips (ECMAScript WhiteSpace and LineTerminator).
- `tasks.dfy` (module `Tasks`): the `Todo` record, the `Patch` of optional fields and the `Request`s sent to the store. It also holds the list transforms (`filter`, and `map` over matching ids), `FilterTodos` and the completed count. Both controllers use these one definitions. The controllers append a new task inline, in their `CompleteAddTodo` steps.
- `percentage.dfy` (module `Percentage`) and `progress.dfy` (module `Completion`): the percentage formula on exact numbers, and the completion percentage of a task list built on it.
- `todo_app.dfy`, `todo_task.dfy`: one `Controller` class per controller. Its fields are the `useState` cells and its methods are the handlers.
- `card_input_box.dfy`, `card_input.dfy`: one class per add box, plus the shared submission rule `Submission`.

How the asynchronous handlers are modelled:

- Each handler is split into an issue step and a completion step.
- The issue step applies the guard and the optimistic list change, and returns the `Request` it would send.
- The completion step takes the `Outcome` of that request.
- In the source, a completion callback sees the `todos` (and, in `TodoTask.tsx`, the `editingTodoId`) of the render that created it. Completion steps therefore take that snapshot as a parameter.
- Toggle and save-edit change the list at issue and never roll back.
- Add and delete change the list only in a successful completion.

Ids are never checked for uniqueness in the source. So every transform acts
on every task whose id matches. Lemmas show that the two controllers agree
when ids are unique, and give a concrete list on which they differ.

## Model

| member | source | states |
|---|---|---|
| Text.Trim | src/TodoApp.tsx:32 | The trimmed string has no space at either end, is no longer than the input, and is empty exactly when the input is all space |
| Text.TrimSplit | src/components/CardInputBox.tsx:17 | Trim only removes space: the input is space, then the trimmed string, then space |
| Text.TrimUnique | src/components/CardInputBox.tsx:17 | Any trimmed text wrapped in space trims back to exactly that text, so trimming is fully determined by the space set |
| Text.TrimIdempotent | src/components/CardInputBox.tsx:16-17 | Trimming twice is the same as trimming once |
| Text.IsBlank | src/TodoApp.tsx:32 | A text is blank, and the handler stops, exactly when every character of it is space |
| Text.TrimmedNonEmptyIsNotBlank | src/TodoApp.tsx:32 | A non-empty trimmed string passes the blank guard |
| Tasks.Find | src/TodoApp.tsx:54 | `find` yields a task exactly when some task has the id, and then it is the task at the first position holding that id |
| Tasks.IndexOf | src/TodoApp.tsx:54 | The position found is that of the first task with the id; no earlier task has it |
| Tasks.Filter | src/TodoApp.tsx:74 | `filter` keeps the elements that pass, in order (a subsequence), each exactly as often as in the input, and drops every other element |
| Tasks.FilterKeepsAll | src/TodoApp.tsx:125 | `filter` drops nothing exactly when every element passes |
| Tasks.FilterTodos | src/TodoApp.tsx:217-226 | "completed" gives exactly the completed tasks and "incomplete" exactly the rest, each as an order-preserving subsequence with the same multiplicities; every other string gives the list unchanged |
| Tasks.FilterPartition | src/TodoApp.tsx:217-226 | The "completed" and "incomplete" views together are the whole list: their multisets add up to it and their lengths to its length |
| Tasks.FilterTodosMember | src/components/TodoTask.tsx:20-29 | A task is in the "completed" view exactly when it is in the list and completed, and in the "incomplete" view exactly when it is in the list and not completed |
| Tasks.CountCompleted | src/TodoApp.tsx:125 | The completed count is the length of the "completed" view; it is at most the list length, equals it exactly when every task is completed and is zero exactly when none is |
| Tasks.CountCompletedCons | src/TodoApp.tsx:125 | Counted task by task: the empty list has none, and a list has one more than its tail exactly when its head is completed |
| Percentage.Percent | src/TodoApp.tsx:127 | The percentage lies in [0, 100]; multiplied by the total it gives the completed count times 100; it is 0 exactly when nothing is done and 100 exactly when the total is positive and everything is done |
| Percentage.ShareBounds | src/TodoApp.tsx:127 | The share of a part in a positive whole lies in [0, 1], scales back to the part, and is 0 only for an empty part and 1 only for the whole |
| Completion.Progress | src/components/TodoTask.tsx:128-130 | Progress is 0 for the empty list and otherwise exactly the completed count divided by the list length, times 100; it lies in [0, 100], is 0 exactly when no task is completed, and 100 exactly when the list is non-empty and every task is completed |
| Completion.ProgressHalf | src/TodoApp.tsx:125-127 | Two tasks with exactly one completed, in either order, give exactly 50 |
| Completion.ProgressTwoThirds | src/TodoApp.tsx:125-127 | Three tasks with exactly two completed, in any order, give exactly 200/3 |
| Tasks.ToggleWhere | src/TodoApp.tsx:49-51 | The toggled list has the same length, ids and titles; `completed` flips on exactly the tasks with the id |
| Tasks.ToggleTwice | src/TodoApp.tsx:49-52 | Toggling the same id twice restores the list |
| Tasks.ToggleAbsent | src/TodoApp.tsx:49-52 | Toggling an id no task has leaves the list unchanged |
| Tasks.RetitleWhere | src/TodoApp.tsx:94-96 | The list keeps its length, ids and `completed` flags; exactly the tasks with the id take the new title |
| Tasks.MergeWhere | src/components/TodoTask.tsx:75-77 | The list keeps its length; tasks with other ids are unchanged; each task with the id becomes itself merged with the patch |
| Tasks.Merge | src/components/TodoTask.tsx:76 | Spreading a patch over a task: each field the patch carries is taken from the patch, each field it leaves out from the task |
| Tasks.MergeFull | src/components/TodoTask.tsx:76 | Merging a patch that names every field replaces the task with the patch's record |
| Tasks.MergeIdempotent | src/components/TodoTask.tsx:76 | Spreading the same patch a second time changes nothing more |
| Tasks.RemoveId | src/TodoApp.tsx:74 | Deletion keeps, in order, exactly the tasks with other ids, each as often as before; the length is unchanged exactly when no task had the id |
| Tasks.RemoveIdGone | src/components/TodoTask.tsx:66 | After deletion no task carries the id |
| Tasks.RemoveIdAbsent | src/components/TodoTask.tsx:66 | Deleting an id no task has leaves the list unchanged |
| Tasks.RemoveIdIdempotent | src/TodoApp.tsx:74 | Deleting twice is the same as deleting once |
| Tasks.SubseqSameLength | src/TodoApp.tsx:74 | An order-preserving selection as long as the list is the list itself |
| TodoApp.Controller.constructor | src/TodoApp.tsx:15-19 | Initial state: empty list, empty `newTodo`, not editing, filter "all" |
| TodoApp.Controller.Mount | src/TodoApp.tsx:21-22 | The mount effect asks for the whole list and changes no state until the answer comes |
| TodoApp.Controller.CompleteLoad | src/TodoApp.tsx:21-29 | A fetched list replaces the whole list; a failed fetch leaves it as it is |
| TodoApp.Controller.AddTodo | src/TodoApp.tsx:31-38 | A blank title sends nothing; any other title sends a create request for `{id: "", title, completed: false}`; the list is untouched |
| TodoApp.Controller.CompleteAddTodo | src/TodoApp.tsx:39-45 | On success the list becomes the captured snapshot plus the server's record and `newTodo` is cleared; on failure nothing changes |
| TodoApp.Controller.ToggleTodo | src/TodoApp.tsx:48-61 | The list becomes the toggled list at once; a request is sent exactly when the id is present, carrying the first match's title and negated `completed` |
| TodoApp.Controller.CompleteToggleTodo | src/TodoApp.tsx:62-67 | Neither outcome changes any state, so a failed toggle is not rolled back |
| TodoApp.Controller.DeleteTodoItem | src/TodoApp.tsx:71-72 | Delete sends a delete request for the id and leaves the list alone |
| TodoApp.Controller.CompleteDeleteTodoItem | src/TodoApp.tsx:73-79 | On success the list becomes the snapshot without the tasks that have the id; on failure it is unchanged |
| TodoApp.Controller.StartEditing | src/TodoApp.tsx:82-85 | The cursor becomes (id, title); nothing else changes |
| TodoApp.Controller.CancelEditing | src/TodoApp.tsx:87-90 | The cursor resets to ("", ""); nothing else changes |
| TodoApp.Controller.HandleEditChange | src/TodoApp.tsx:163 | The edit buffer takes the input's value; nothing else changes |
| TodoApp.Controller.SaveEditing | src/TodoApp.tsx:92-107 | A blank buffer changes nothing and sends nothing. Otherwise the list is retitled at once, and an update with the buffer and the first match's `completed` is sent exactly when the editing id is present. The cursor stays |
| TodoApp.Controller.CompleteSaveEditing | src/TodoApp.tsx:108-115 | Success resets the cursor to ("", ""); failure leaves it |
| TodoApp.Controller.KeyPressInAddBox | src/TodoApp.tsx:210 | Enter on a non-blank add box sends a create request for exactly the trimmed buffer and clears the box; otherwise nothing is sent and the box keeps its text |
| TodoApp.Controller.HandleFilterChange | src/TodoApp.tsx:121-123 | The filter takes the selected string as is |
| TodoTask.Controller.constructor | src/components/TodoTask.tsx:32-35 | Initial state: empty list, not editing, filter "all" |
| TodoTask.Controller.Mount | src/components/TodoTask.tsx:37-38 | The mount effect asks for the whole list and changes no state until the answer comes |
| TodoTask.Controller.CompleteLoad | src/components/TodoTask.tsx:37-45 | A fetched list replaces the whole list; a failed fetch leaves it |
| TodoTask.Controller.AddTodo | src/components/TodoTask.tsx:47-54 | A blank title sends nothing; any other title sends a create request for `{id: "", title, completed: false}` |
| TodoTask.Controller.CompleteAddTodo | src/components/TodoTask.tsx:55-60 | On success the list is one longer, starts with the captured snapshot and ends with the server's record; on failure it is unchanged |
| TodoTask.Controller.DeleteTodoItem | src/components/TodoTask.tsx:63-64 | Delete sends a delete request for the id and leaves the list alone |
| TodoTask.Controller.CompleteDeleteTodoItem | src/components/TodoTask.tsx:65-71 | On success the list becomes the snapshot without the tasks that have the id; on failure it is unchanged |
| TodoTask.Controller.HandleTodoUpdate | src/components/TodoTask.tsx:74-80 | The patch is merged at once into every task with the id, and an update request with that patch is sent |
| TodoTask.Controller.CompleteTodoUpdate | src/components/TodoTask.tsx:81-90 | Success clears the cursor only if the id equals the cursor captured at issue; failure, or another id, leaves the cursor as it is |
| TodoTask.Controller.ToggleTodo | src/components/TodoTask.tsx:93-103 | An absent id changes nothing and sends nothing. Otherwise the first match with `completed` negated is merged into every match and sent |
| TodoTask.Controller.SaveEditing | src/components/TodoTask.tsx:105-116 | A blank buffer or an absent editing id changes nothing and sends nothing. Otherwise the buffer, with the first match's `completed`, is merged into every match and sent |
| TodoTask.Controller.StartEditing | src/components/TodoTask.tsx:118-121 | The cursor becomes (id, title); nothing else changes |
| TodoTask.Controller.HandleEditChange | src/components/TodoTask.tsx:148 | The edit buffer takes the input's value; nothing else changes |
| TodoTask.Controller.KeyPressInAddBox | src/components/TodoTask.tsx:184 | Enter on a non-blank add box sends a create request for exactly the trimmed buffer and clears the box; otherwise nothing is sent and the box keeps its text |
| TodoTask.Controller.HandleFilterChange | src/components/TodoTask.tsx:124-126 | The filter takes the selected string as is |
| TodoTask.ToggleFields | src/components/TodoTask.tsx:96-100 | The toggle payload, spread over any task, gives the found task with `completed` negated |
| TodoTask.RetitleFields | src/components/TodoTask.tsx:109-113 | The save payload, spread over any task, gives the editing id with the new title and the found task's `completed` |
| TodoTask.ToggleFieldsFlip | src/components/TodoTask.tsx:96-101 | After a toggle, every task with the id has that id, the found task's title and its negated `completed` |
| TodoTask.RetitleFieldsSet | src/components/TodoTask.tsx:109-114 | After a save, every task with the editing id is the new title with the found task's `completed`; the other tasks and the length are unchanged |
| TodoTask.OnlyFirstMatch | src/components/TodoTask.tsx:94 | With unique ids, the task `find` returns is the only one with its id |
| TodoTask.TwinTogglesAgree | src/components/TodoTask.tsx:93-103 | With unique ids, this controller's toggle gives the same list as the per-task flip in src/TodoApp.tsx |
| TodoTask.TwinSavesAgree | src/components/TodoTask.tsx:105-116 | With unique ids, this controller's save gives the same list as the retitling in src/TodoApp.tsx |
| TodoTask.TwinTogglesDifferOnDuplicateIds | src/components/TodoTask.tsx:74-78 | On a list with two tasks sharing an id, this controller copies the first match over both, while src/TodoApp.tsx flips each one |
| TodoTask.MenuChoicesShowEverything | src/components/TodoFilter.tsx:22-23 | The values this controller's menu offers ("all", "done", "undone") all leave the list unfiltered |
| CardInputBox.Submission | src/components/CardInputBox.tsx:15-26 | Something is handed over exactly when the buffer is not all space, and it is then the non-empty, trimmed buffer |
| CardInputBox.SubmissionPassesAddGuard | src/components/CardInputBox.tsx:16-17 | A handed-over title passes the blank-title guard of `addTodo`, and trimming it again changes nothing |
| CardInputBox.CardInputBox.constructor | src/components/CardInputBox.tsx:9 | The buffer starts empty |
| CardInputBox.CardInputBox.HandleTitleChange | src/components/CardInputBox.tsx:11-13 | The buffer takes the input's value |
| CardInputBox.CardInputBox.HandleBlur | src/components/CardInputBox.tsx:15-20 | Blur hands over the submission of the buffer; the buffer is cleared exactly when something was handed over |
| CardInputBox.CardInputBox.HandleKeyPress | src/components/CardInputBox.tsx:22-27 | Enter hands over the submission of the buffer; any other key hands over nothing; the buffer is cleared exactly when something was handed over |
| CardInput.CardInput.constructor | src/components/CardInput.tsx:9 | The buffer starts empty |
| CardInput.CardInput.HandleTitleChange | src/components/CardInput.tsx:11-13 | The buffer takes the input's value |
| CardInput.CardInput.HandleBlur | src/components/CardInput.tsx:15-20 | Blur hands over the submission of the buffer; the buffer is cleared exactly when something was handed over |
| CardInput.CardInput.HandleKeyPress | src/components/CardInput.tsx:22-27 | Enter hands over the submission of the buffer; any other key hands over nothing; the buffer is cleared exactly when something was handed over |

## Left out

- The HTTP client (src/api/todosApi.ts) is left out. Requests are returned as `Request` values, and responses come back as `Outcome` values chosen by the caller.
- The model does not say what the server returns. For example, it does not assume that a created record has `completed == false` or a fresh id.
- Promise scheduling is left out. Completion steps can be applied in any order by the caller. The race between overlapping requests for the same id is therefore expressible but not modelled as a schedule.
- `console.error` and `console.log` diagnostics are left out.
- Completion.Progress: the source divides floating-point numbers, and the model uses exact reals. Rounding of the JavaScript division is not captured, and neither is the `toFixed(0)` display rounding.
- Rendering is left out: the progress bar, the Progress component, the dropdown menu (src/components/DropdownMenu.tsx) and the two `<select>` wrappers (src/components/TaskFilter.tsx, src/components/TodoFilter.tsx). Only the strings those wrappers emit matter, and any string can be passed to `HandleFilterChange`.
- Text.Trim: characters are Unicode scalar values, while JavaScript strings are UTF-16 code units. Every character that trim strips lies in the Basic Multilingual Plane, so the outcome is the same.
- HandleBlur and HandleKeyPress are modelled only for the add boxes' own state. The controllers model just the Enter path of the wiring (`KeyPressInAddBox`), because blur hands over the same submission.
