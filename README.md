# Task store model

A Dafny model of the task store of a command-line task tracker (`tasks.py`).
The store holds tasks with an id, a title, a description, tags, a status
(`todo`, `in_progress`, `done`) and three timestamps (`created_at`,
`started_at`, `finished_at`). Each public operation loads the whole collection,
works on it in memory, and may write the whole collection back. The model
takes the loaded collection as a `seq<Task>` argument. The written-back
collection is the sequence the operation returns. The clock reading is a `now`
argument of the form `"YYYY-MM-DD HH:MM"`.

Modules:

- `TaskModel` (`task_model.dfy`): the `Task` record, the status and sort-field
  enumerations, the timestamp sentinel `"0000-00-00 00:00"`, and the two
  in-place edits of one record: `Transition` (what `update_status` does to the
  task it finds) and `Edit` (what `update_task` does).
- `LexOrder` (`lex_order.dfy`): Python's `str` order (code point by code point,
  a proper prefix first), proved to be a total order.
- `Subsequences` (`subsequences.dfy`): order-preserving filtering, `Filter`, and
  the loop `Keep` that each filtering stage of `list_tasks` runs.
- `StableSort` (`stable_sort.dfy`): the sort key (the sentinel for an unset
  field), a reference stable insertion sort `SortSpec`, and the sorting loop
  `SortTasks` proved equal to it.
- `TaskStore` (`task_store.dfy`): the operations `NewTask`, `ViewTask`,
  `DeleteTask`, `UpdateStatus`, `UpdateTask` and `ListTasks`. Each is a method
  with the source's loops, proved equal to a specification function
  (`Created`, `Lookup`, `Deleted`, `StatusUpdated`, `Edited`, `Listed`). Lemmas
  state what the source promises about those functions.
- `TaskSession` (same file): a create, create, start, list-by-tag, delete
  session on an empty store, worked through the specification functions.

Behaviours of the code worth knowing:

- Ids are not monotone across deletions. A new task's id is the largest
  stored id + 1, computed from the tasks stored now. Deleting the task with the
  largest id therefore lets the next new task take an id no larger than the
  deleted one (`TaskStore.NextIdAfterDeletingTop`). When the ids have no gaps
  it takes the same id (`TaskStore.DeletingTopOfNumberingReusesId`).
- `start` overwrites `started_at` on every call, so a start time can change
  after it was first set. It accepts any current status, including `done`.
  `finish` likewise overwrites `finished_at`. Neither transition clears the
  other timestamp.
- A missing `created_at` also sorts as the sentinel, as the sort key does for
  all three fields.
- `delete_task` and `update_task` do not reject non-positive ids; only
  `view_task` and `update_status` do.

## Model

| member | source | states |
|---|---|---|
| `TaskModel.NewRecord` | tasks.py:15-24 | a new task has the given id, title, description and tags, status `todo`, `created_at` = now and neither a start nor a finish time |
| `TaskModel.TransitionEffects` | tasks.py:154-159 | `start` sets status `in_progress` and `started_at` = now, `finish` sets status `done` and `finished_at` = now, each keeping the other timestamp; any other action leaves the task as it was; id, title, description, tags and creation time never change |
| `TaskModel.TransitionKeepsTimestamps` | tasks.py:154-159 | no transition clears a start or finish time that was set |
| `TaskModel.StartThenFinish` | tasks.py:154-159 | `start` then `finish` ends in `done` with both times set, the start time untouched by the finish |
| `TaskModel.RestartFinishedTask` | tasks.py:154-156 | `start` on a `done` task is accepted: it becomes `in_progress` with a new start time and keeps its finish time |
| `TaskModel.EditEffects` | tasks.py:184-187 | a non-empty new title or description replaces its field, an empty one keeps it, and every other field is unchanged |
| `Subsequences.Keep` | tasks.py:211-215 | the filtering loop returns exactly `Filter` of its input: an order-preserving subsequence holding exactly the elements that pass the test |
| `Subsequences.FilterIsSubsequence` | tasks.py:210-229 | each filter stage keeps the input order |
| `Subsequences.FilterCounts` | tasks.py:210-229 | every survivor passes the test, and every element that passes survives as often as it occurs |
| `Subsequences.FilterMembers` | tasks.py:210-229 | an element is in the output exactly when it is in the input and passes the test |
| `StableSort.SortSpecCorrect` | tasks.py:231-238 | the sort orders by key, is a permutation of its input, and for every key keeps the tasks carrying it in input order (stability) |
| `StableSort.UnsetSortsFirst` | tasks.py:232-236 | a task whose field is unset sorts no later than one holding a well-formed timestamp there |
| `StableSort.SortTasks` | tasks.py:238 | the sorting loop returns the reference stable sort: sorted by key, a permutation, stable |
| `TaskStore.FirstIndex` | tasks.py:112-115 | the scan finds an index holding the id with no earlier task holding it, and finds none exactly when no task has the id |
| `TaskStore.FindFirst` | tasks.py:126-129 | the scanning loop returns the first index holding the id, or none |
| `TaskStore.ViewTask` | tasks.py:107-115 | a non-positive id gives nothing; otherwise the first task with that id, and nothing exactly when no task has it |
| `TaskStore.MaxId` | tasks.py:90-91 | the result is at least every stored id and is itself a stored id |
| `TaskStore.NewTask` | tasks.py:89-98 | the store gains one task at the end, earlier tasks unchanged, whose id is above every stored id |
| `TaskStore.NextIdAllocates` | tasks.py:90-96 | the new id is 1 on an empty store, otherwise one more than a stored id, and always above every stored id |
| `TaskStore.CreatedAppendsTodo` | tasks.py:95-97 | creation appends exactly one `todo` task with the given fields, the next id, and no start or finish time |
| `TaskStore.CreatedKeepsIdsUnique` | tasks.py:89-98 | if stored ids are unique they stay unique after a creation |
| `TaskStore.CreatedExtendsNumbering` | tasks.py:89-98 | creating on a store numbered 1..n without gaps gives ids 1..n+1 |
| `TaskStore.DeletingTopOfNumberingReusesId` | tasks.py:90-96 | on a store numbered 1..n without gaps, deleting task n and creating a task gives the new task the id n again |
| `TaskStore.NextIdAfterDeletingTop` | tasks.py:90-96 | with unique ids, after deleting the task with the largest id the next id is no larger than the deleted one, and 1 when the store is left empty |
| `TaskStore.DeleteTask` | tasks.py:123-136 | the store is written back exactly when a task has the id; then it loses one task, otherwise it is unchanged |
| `TaskStore.DeletedMissingKeepsStore` | tasks.py:131-136 | deleting an id no task has leaves the store as it was |
| `TaskStore.DeletedRemovesOne` | tasks.py:125-133 | deleting an existing id removes exactly one task and keeps the others in order |
| `TaskStore.DeletedTaskHasId` | tasks.py:125-133 | the one task removed carries the id: the store before is the store after plus that task |
| `TaskStore.DeletedKeepsOthers` | tasks.py:125-133 | with unique ids, no task with the id remains, every task with another id remains, and ids stay unique |
| `TaskStore.UpdateStatus` | tasks.py:146-162 | a non-positive id answers nothing and reads no store; otherwise the answer is whether a task has the id; the store changes only on a true answer, by `StatusUpdated` |
| `TaskStore.StatusUpdatedChangesOnlyMatch` | tasks.py:152-161 | only the first task with the id changes, and it changes exactly by its transition |
| `TaskStore.StatusUpdatedKeepsIds` | tasks.py:152-161 | a status update keeps the length and every id, so unique ids stay unique |
| `TaskStore.UpdateTask` | tasks.py:178-193 | a missing id is an error naming it, with nothing written back; otherwise the store is `Edited` |
| `TaskStore.EditedChangesOnlyMatch` | tasks.py:181-188 | only the first task with the id changes, and it changes exactly by `Edit` |
| `TaskStore.ListTasks` | tasks.py:208-244 | the listing loops return `Listed`, and a stored task is listed exactly when it passes every filter that is on |
| `TaskStore.FilteredIsOneFilter` | tasks.py:210-229 | the status, tag and search stages in sequence are one filter by the conjunction of their tests, a stage that is off passing everything |
| `TaskStore.ListedCounts` | tasks.py:210-244 | the listing holds each stored task that passes every filter that is on, as often as it is stored, and nothing else |
| `TaskStore.ListedMembers` | tasks.py:210-244 | a stored task is listed exactly when it passes every filter that is on |
| `TaskStore.ListedOrder` | tasks.py:210-244 | without a sort key the listing keeps the stored order; with one it is ordered by that key and stable for equal keys |
| `TaskSession.CreateStartListDelete` | tasks.py:89-136 | two creations give ids 1 and 2, `start` on 1 sets it in progress with a start time, listing by tag `work` gives only task 2, and deleting 1 leaves only task 2 |

## Left out

- Reading and writing the JSON file (`load_tasks`, `save_tasks`, tasks.py:27-79): the loaded collection is an argument and the saved one a result. The fallback to an empty list on a missing, malformed or unreadable file is not modelled. Neither is a failed write, which the source reports but otherwise ignores; every write is taken to succeed.
- The clock (`datetime.now()`): every operation that needs the time takes it as `now`.
- Coloured diagnostics printed on every path, the banner, `full_help` and the argument parsing in `main` (tasks.py:6-10, 247-331).
- The `isinstance(task_id, int)` checks and the `AttributeError` / `Exception` handlers of `update_status`: ids are integers and records are well-formed here, so those paths cannot arise.
- Task objects are values. Assigning a field of the found task becomes replacing the record at its index. Each operation loads fresh objects that nothing else holds, so no sharing is lost. The records `list_tasks` returns are values too, not dictionaries tied to the task objects.
- `tasks.sort` is Python's in-place sort. It is modelled as an insertion sort that builds a new sequence. Both are stable sorts on the same key, so they agree on the output, but that equivalence is not proved here.
- Stored status strings other than the three the store writes, ids that are missing from a stored record (`None`), and sort fields other than the three timestamps are not modelled.
- A missing optional argument (`None`) and an empty string behave alike in the source for tag, search, title and description (both are falsy). The model passes the empty string for both.
