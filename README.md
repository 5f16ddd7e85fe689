# Tasker: a Dafny model of its two task lists

Tasker holds two small to-do applications. The first is a desktop app written in Rust with iced (`tasker/src/main.rs`). Its whole state is one `Tasker` value, and `update` changes it one `Message` at a time. The second is a Next.js web client (`src/`). It mirrors the signed-in user's tasks from a hosted document store, and it writes the user's edits back to that store. It sorts and groups the tasks for display. It can also append subtasks suggested by a generative model.

This project models the state changes, list transformations and display rules of both applications, and proves their properties:

- `option.dfy`: the `Option` type that both applications use.
- `seqs.dfy`: `filter` over sequences, with lemmas about order and about what it keeps.
- `types.dfy`: the web client's `Subtask` and `Task` records (`src/lib/types.ts`).
- `tasker.dfy`: the desktop app. `class Tasker` has the fields of the Rust struct and one method per `Message` arm, and `Update` dispatches to them. Every method keeps the id discipline: ids strictly increase along the list and all are below `nextTaskId`. The view's filter is a pure function.
- `home.dfy`: the web page (`src/app/page.tsx`). `class Home` holds the document store (a map from document id to document), the user's uid, the local mirror and the task being edited. Its methods are the snapshot callback and the handlers. `updateDoc` is a field-level merge that leaves a missing document alone, and `deleteDoc` of a missing document does nothing. The lost update in toggle-subtask is stated and proved as a sequential lemma.
- `task_list.dfy`: the comparator, a stable sort (`SortTasks`) and the pending and completed groups. A second lemma shows that any stable sort with this comparator gives the same list, so the choice of insertion sort does not matter.
- `task_item.dfy`: subtask generation, the due-date badge and the subtask counter. The badge compares instants the way date-fns `isPast` and `isToday` do, and a lemma proves that this is the same as comparing day numbers.

Some things outside the program are modelled as parameters. The suggestion service's answer is a `Suggestion` parameter. `crypto.randomUUID` is replaced by a supply of ids. The store's choice of a new document id is a parameter that must not name an existing document. The clock is a `now` parameter, in local-time milliseconds. A snapshot is the list of document ids the live query delivers, and the query's guarantee is a precondition: exactly the user's documents, each once.

## Model

| member | source | states |
|---|---|---|
| `Tasker.Tasker.constructor` | tasker/src/main.rs:54-65 | The app starts with no tasks, an empty input, the `All` filter, ids from 0 and nothing being edited. The id invariant holds. |
| `Tasker.Tasker.OnNewTaskDescriptionChanged` | tasker/src/main.rs:73-75 | Only the input text changes, and it becomes the given text. |
| `Tasker.Tasker.OnAdd` | tasker/src/main.rs:76-87 | An empty input changes nothing. Otherwise exactly one task is appended: id = old `nextTaskId`, the input's text, no due date, not completed. The input is then cleared and `nextTaskId` goes up by one. Filter and editing are not touched. The id invariant is kept. |
| `Tasker.Tasker.OnToggleCompleted` | tasker/src/main.rs:88-92 | The task with that id gets `completed := c`. No other task or field changes, an unknown id changes nothing, and the list keeps its length. |
| `Tasker.Tasker.OnDelete` | tasker/src/main.rs:93-95 | The list becomes the old list without the tasks that have that id, in the same order. Every other task stays. The id invariant is kept. |
| `Tasker.Tasker.OnFilterChanged` | tasker/src/main.rs:96-98 | Only the filter changes. |
| `Tasker.Tasker.OnEdit` | tasker/src/main.rs:99-101 | `editing` becomes `Some(id)` whatever it was before. The list is not touched. |
| `Tasker.Tasker.OnTaskDescriptionChanged` | tasker/src/main.rs:102-106 | Only the description of the task with that id changes. An unknown id changes nothing. |
| `Tasker.Tasker.OnSave` | tasker/src/main.rs:107-111 | `editing` is cleared only when it is `Some(id)`. Otherwise it stays. The list is not touched. |
| `Tasker.Tasker.Update` | tasker/src/main.rs:71-114 | Every message keeps the id invariant and has exactly its arm's effect, stated per message. `NewTaskDescriptionChanged` sets the input. `Add` appends the input as a new task, clears the input and advances `nextTaskId`, or with an empty input changes nothing. `ToggleCompleted` and `TaskDescriptionChanged` change that field of the task with the id and nothing else. `Delete` retains the other tasks in order. `FilterChanged` sets the filter. `Edit` sets `editing`, and `Save` clears it when the id matches. Fields that an arm does not touch keep their values. |
| `Tasker.FindIndex` | tasker/src/main.rs:89 | `iter_mut().find` stops at the first task with the id, or finds none exactly when no task has it. |
| `Tasker.WithoutKeepsIdsFresh` | tasker/src/main.rs:93-95 | `retain` keeps ids strictly increasing and below `nextTaskId`. |
| `Tasker.DeleteKeepsOthersInOrder` | tasker/src/main.rs:93-95 | A task survives `Delete(id)` exactly when its id differs. Deleting from a split list is deleting from each part, so relative order is kept. |
| `Tasker.ViewFilter` | tasker/src/main.rs:126-130 | `All` shows every task. `Active` shows exactly the incomplete tasks and `Completed` exactly the completed ones. The filter keeps list order. |
| `Home.FromDoc` | src/app/page.tsx:36 | A document read back with its id gives a task that carries that id. Dropping the id again gives back the same document. |
| `Home.UpdateWritesTask` | src/app/page.tsx:60-64 | Writing all fields of a task except `id` replaces the named document by the task. A missing document is not created. Writing back a task unchanged from its document leaves the store as it was. |
| `Home.FindTask` | src/app/page.tsx:91 | `tasks.find` returns the first mirror task with the id, or none exactly when no task has it. |
| `Home.MarkSubtask` | src/app/page.tsx:93 | The new subtask list has the mirror list's length and order. Entries with the matching id get `completed := c`, and all other entries are unchanged. |
| `Home.ToggleSubtaskLostUpdate` | src/app/page.tsx:90-96 | Two toggles computed from the same mirror, with any two values: the stored list ends as the second toggle alone made it. Every entry the second toggle does not address is as the mirror had it, so the first toggle is lost whatever value it wrote. |
| `Home.ToggleSubtaskFromRefreshedMirror` | src/app/page.tsx:90-96 | If the second toggle is computed from a mirror that already holds the first write, both toggles survive: the second's entries hold its value, and the first's other entries hold the first's value. |
| `Home.CollectUserTasks` | src/app/page.tsx:33-38 | The `push` loop builds one task per snapshot document, in snapshot order. Each task is the document's fields with its id. |
| `Home.SnapshotMirrorsUserDocs` | src/app/page.tsx:32-38 | A mirror built from a snapshot contains a task with a given id exactly when the store has a document with that id owned by the user. Each task equals its document with its id, and no id appears twice. |
| `Home.Home.constructor` | src/app/page.tsx:19-21 | The mirror starts empty and no task is being edited. |
| `Home.Home.OnSnapshot` | src/app/page.tsx:30-42 | A snapshot replaces the whole mirror with the user's documents. The mirror keeps holding only the signed-in user's tasks. |
| `Home.Home.AddTask` | src/app/page.tsx:44-58 | With no user nothing is written. Otherwise exactly one new document is added, with the title and due date, `completed == false`, no subtasks and `userId ==` the user's uid. |
| `Home.Home.UpdateTask` | src/app/page.tsx:60-69 | Every field but `id` is written to the document named by `id`, and a missing document stays missing. For a task from the mirror, `userId` is written back as the user's own uid. |
| `Home.Home.DeleteTask` | src/app/page.tsx:71-78 | The document is removed. Removing a missing one changes nothing. |
| `Home.Home.EditTask` | src/app/page.tsx:80-83 | The dialog's editing task becomes the given task. |
| `Home.Home.NewTask` | src/app/page.tsx:121 | The dialog opens with no task being edited. |
| `Home.Home.ToggleComplete` | src/app/page.tsx:85-88 | Only the `completed` field of the named document is overwritten. A missing document stays missing. |
| `Home.Home.ToggleSubtask` | src/app/page.tsx:90-97 | Nothing is written if the mirror lacks the task. Otherwise the document's `subtasks` field is replaced whole by the list computed from the mirror, and nothing else changes. |
| `Home.Home.SaveTask` | src/app/page.tsx:99-109 | While editing, the captured task is written with the new title and due date, and every other field comes from the captured copy. Without an editing task, the effect is that of add. |
| `TaskList.CompareIsTotalPreorder` | src/components/task-list.tsx:28-38 | The comparator is reflexive, antisymmetric in sign and transitive. Two tasks tie exactly when their completion status and due date are the same. |
| `TaskList.SortTasks` | src/components/task-list.tsx:27-39 | The sorted list is a permutation of the input, and the input is unchanged. Incomplete tasks come before completed ones. Within one status, due dates ascend and undated tasks come last. |
| `TaskList.SortIsStable` | src/components/task-list.tsx:36-37 | Tasks that compare equal keep their input order. |
| `TaskList.StableSortIsSortTasks` | src/components/task-list.tsx:28 | Every ordered list with the input's tie groups, which is what any stable sort produces, equals `SortTasks` of the input. |
| `TaskList.GroupsSplitOrdered` | src/components/task-list.tsx:41-42 | On an ordered list, the pending group followed by the completed group is the whole list. |
| `TaskList.GroupsPartitionSortedTasks` | src/components/task-list.tsx:41-42 | `pendingTasks ++ completedTasks == sortedTasks`, and the two lengths add up to the number of tasks. |
| `TaskItem.NewSubtasks` | src/components/task-item.tsx:56-60 | Each suggested text becomes one subtask with that text and `completed == false`. The subtasks take fresh ids, in suggestion order. |
| `TaskItem.GenerateSubtasks` | src/components/task-item.tsx:52-76 | A failed call issues no update. On success, the old subtasks are an unchanged prefix, followed by the new ones. The length is old plus suggestions, and no other field of the task changes. |
| `TaskItem.GeneratedIdsStayDistinct` | src/components/task-item.tsx:56-61 | Fresh ids that are distinct and unused keep the subtask ids of the task unique. |
| `TaskItem.GenerateThenUpdateWritesOnlySubtasks` | src/components/task-item.tsx:61 | Handing the generated task to the update handler changes only the stored document's `subtasks`: old ones, then new ones. This holds while the card shows the stored document. |
| `TaskItem.PastNotTodayIsEarlierDay` | src/components/task-item.tsx:79 | `isPast(d) && !isToday(d)` holds exactly when d's day is before today. |
| `TaskItem.DueDateBadgeVariant` | src/components/task-item.tsx:78-86 | The variant is `destructive` for a due day before today, `secondary` for today and `default` for a later day. |
| `TaskItem.Badge` | src/components/task-item.tsx:108-112 | There is no badge without a due date. A completed task's badge is `outline` whatever its date. Otherwise it is the due-day variant. |
| `TaskItem.SubtaskCounter` | src/components/task-item.tsx:141-147 | The counter is shown only when there are subtasks. The completed count is at most the total. It equals the total exactly when every subtask is completed, and it is zero exactly when none is. |

## Left out

- Rendering (iced widgets, JSX), the theme (`tasker/src/theme.rs`), toasts, console logging, the `isGenerating` spinner flag and the `isDialogOpen` flag (src/app/page.tsx:20, set by `handleEditTask` at line 82 and by the add button at line 121): none of them changes the modelled state.
- Authentication (`src/app/login/page.tsx`, `src/components/header.tsx`) and the store's configuration (`src/lib/firebase.ts`): these are foreign-service I/O. The signed-in user is fixed when a `Home` is created.
- The live subscription's lifecycle (`onSnapshot`, `unsubscribe` on sign-out) and the interleaving of asynchronous handlers: only the sequential effect of one delivered snapshot is modelled. Handler writes take effect in the store at once.
- Store writes that the service rejects (permissions, network) leave the store unchanged, so the model shows accepted writes only. Add, update and delete catch the rejection and show a toast. The two toggle handlers (src/app/page.tsx:85-88 and 90-97) neither await nor catch their `updateDoc`, so there a rejection is an unhandled promise rejection. An `updateDoc` of a missing document is modelled, and it changes nothing.
- The suggestion call, `crypto.randomUUID` and date-fns `format`: these become parameters (an outcome, an id supply, `now`).
- ISO-8601 conversion of due dates (`toISOString`, `new Date(...)`) and the comparator's behaviour on invalid dates (NaN). Due dates are integer millisecond timestamps.
- Time zones: `isToday` works in local time, and the model takes instants as local-time milliseconds.
- The desktop app's `due_date`: no message ever sets it, so it is always `None` on the tasks the app creates.
- Form validation in `src/components/task-dialog.tsx`: only its rule that the title is non-empty is carried, as the precondition of `Home.Home.SaveTask`.
- Tasker.Tasker.OnAdd: `next_task_id` is a Rust `usize`, and the model does not show its overflow after 2^64 additions.
- TaskList.CompareIsTotalPreorder: where the source returns +Infinity or -Infinity, the model returns 1 or -1. Only the sign matters to `sort`.
