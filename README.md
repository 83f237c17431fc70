# Task-board projection of the project-management client

This project models, in Dafny, the logic of the kanban board of a
single-page project-management client (`ProjectTasks.js`) and the
per-project task count of its dashboard (`dashboard.js`). The board fetches
tasks, task states and users from a REST API, joins them in memory and draws
one column per task state. A card dropped into another column becomes one
`change-state` request. The model covers the pure and imperative steps
between the fetched lists and the drawn columns:

- **task states** (`task_states.dfy`): the states are sorted in place by
  `state_order` with a stable sort, and a `state_name -> state_id` lookup is
  filled from the sorted list in a loop. When two states share a name, the
  later one wins.
- **task preparation** (`task_preparation.dfy`): a `user_id -> username`
  lookup is filled from the users. Every received task gets
  `assigned_users_names` written onto it, one entry per assigned id, and the
  entry is `undefined` when no user has that id. For a role other than
  `ADMIN`, the list is then filtered to the tasks assigned to the current
  user.
- **board** (`board.dfy`): tasks are pushed into one bucket per state name.
  There is an empty bucket for every known state, and a bucket is created on
  the fly for a name no state has. The regrouping runs only when both lists
  are non-empty. The drawn columns follow the sorted states.
- **drag end** (`drag_drop.dfy`): a drop becomes `Ignored`, `UnknownState`
  (logged, no request) or `ChangeState(taskId, stateId)`.
- **assignees** (`assignees.dfy`): the selected `<option>` values are
  collected in option order. A new task is assigned to the form's selection
  when the user is `ADMIN` and a selection exists, and to the current user
  otherwise.
- **dashboard** (`dashboard.dfy`): the number of tasks whose `project_id`
  equals the project's.

`collections.dfy` holds the order-preserving filter and the
last-write-wins map shared by these modules. `entities.dfy` holds the
records, and `options.dfy` holds `Option`, which models JavaScript's
`undefined`.

The current user record, which the source reads from browser storage, is
passed in as the two parameters `role` and `userId`. Every HTTP request
becomes either a returned value (`DragOutcome`) or the input of a handler
(the received arrays).

Repeated state names are tolerated: the lookup keeps the id of the last
state with that name. Ties in `state_order` keep input order. A `state_id`
of 0 also aborts a move, because `ProjectTasks.js:161` tests truthiness.

## Model

| member | source | states |
|---|---|---|
| `TaskStates.SortStatesInPlace` | src/components/routes/ProjectTasks.js:83 | sorting the received array in place leaves exactly the reference stable sort `SortByOrder` of its old contents |
| `TaskStates.InsertIntoPrefix` | src/components/routes/ProjectTasks.js:83 | one insertion pass moves an element into the sorted prefix, in the stable position, and leaves the rest of the array alone |
| `TaskStates.SortByOrderSorted` | src/components/routes/ProjectTasks.js:83 | the sorted states have non-decreasing `state_order` |
| `TaskStates.SortByOrderPermutation` | src/components/routes/ProjectTasks.js:83 | the sorted states are a permutation of the received ones |
| `TaskStates.SortByOrderStable` | src/components/routes/ProjectTasks.js:83 | for every `state_order` value, the states carrying it keep their input order |
| `TaskStates.SortByOrderOfSorted` | src/components/routes/ProjectTasks.js:83 | sorting a list already in non-decreasing `state_order` returns it unchanged |
| `TaskStates.SortByOrderIdempotent` | src/components/routes/ProjectTasks.js:83 | sorting twice gives what sorting once gives |
| `TaskStates.BuildNameToId` | src/components/routes/ProjectTasks.js:86-89 | every state's name is a key and there are no other keys; each key maps to the id of the last state with that name |
| `TaskStates.ReceiveTaskStates` | src/components/routes/ProjectTasks.js:83-90 | the handler leaves the array sorted and returns the lookup built from the sorted states |
| `TaskPreparation.BuildUserNames` | src/components/routes/ProjectTasks.js:39-42 | every user's id is a key and there are no other keys; each id maps to the username of the last user with that id |
| `TaskPreparation.NamesOf` | src/components/routes/ProjectTasks.js:46-48 | the names list is as long as the ids list, and entry i is the lookup of id i, missing when the id is absent |
| `TaskPreparation.Enrich` | src/components/routes/ProjectTasks.js:44-49 | the task now carries one name entry per assigned id, and no other field changes |
| `TaskPreparation.EnrichAll` | src/components/routes/ProjectTasks.js:44-49 | the list keeps its length, and every position holds the enriched task of that position |
| `TaskPreparation.EnrichInPlace` | src/components/routes/ProjectTasks.js:44-49 | after the loop, every task of the array has been enriched in place |
| `TaskPreparation.EnrichedNameFromUsers` | src/components/routes/ProjectTasks.js:39-48 | a name entry is missing iff no user has the id; otherwise it is the username of the last user with that id |
| `TaskPreparation.VisibleTasks` | src/components/routes/ProjectTasks.js:52-57 | `ADMIN` gets the list unchanged; any other role gets exactly the tasks whose `assigned_users` contain the user's id |
| `TaskPreparation.VisibleTasksOrder` | src/components/routes/ProjectTasks.js:52-57 | the filter distributes over concatenation and keeps a single task iff it is visible, so it keeps input order |
| `TaskPreparation.EnrichThenFilter` | src/components/routes/ProjectTasks.js:44-57 | filtering the enriched tasks gives the enriched filtered tasks, so the order of the two steps does not matter |
| `TaskPreparation.SurvivorsEnriched` | src/components/routes/ProjectTasks.js:44-57 | every task that survives the filter carries names, one per assigned id |
| `TaskPreparation.PrepareTasks` | src/components/routes/ProjectTasks.js:37-59 | the handler enriches the array in place and returns the role-filtered view of it |
| `TaskPreparation.EnrichScenario` | src/components/routes/ProjectTasks.js:39-49 | with users 5 "ann" and 9 "bo", ids [5, 9] give ["ann", "bo"] and ids [5, 42] give ["ann", undefined] |
| `Board.EmptyBuckets` | src/components/routes/ProjectTasks.js:98-101 | the first loop leaves one empty bucket per known state name and no other bucket |
| `Board.PushGroups` | src/components/routes/ProjectTasks.js:104-109 | pushing one task (onto its existing bucket, or into a new one) extends a correct grouping of the earlier tasks to a correct grouping that includes it |
| `Board.OrganizeTasksByState` | src/components/routes/ProjectTasks.js:97-113 | the grouping the loops build equals the reference `Buckets`: one bucket per known state or task state name, holding exactly the tasks of that name in input order |
| `Board.BucketsMembership` | src/components/routes/ProjectTasks.js:97-110 | known states and unknown task state names all have buckets, and a task is in a bucket iff the bucket is named after its state |
| `Board.BucketMultiplicity` | src/components/routes/ProjectTasks.js:103-110 | a bucket holds every occurrence of the tasks of its name and no occurrence of any other task |
| `Board.BucketOrder` | src/components/routes/ProjectTasks.js:103-110 | the bucket of a concatenation is the concatenation of the buckets, so tasks keep their input order |
| `Board.BucketSizesSum` | src/components/routes/ProjectTasks.js:97-110 | summed over the distinct bucket names, the bucket sizes equal the number of input tasks |
| `Board.ThreeColumnScenario` | src/components/routes/ProjectTasks.js:97-110 | states Todo, Doing and Done with one task in Doing give the buckets Todo: [], Doing: [task], Done: [] |
| `Board.RenderedColumns` | src/components/routes/ProjectTasks.js:558-568 | one column per known state, in state order, showing that name's bucket, or nothing when there is no bucket |
| `Board.RenderedCards` | src/components/routes/ProjectTasks.js:558-568 | a task is drawn in a column iff the column's state has the task's state name |
| `Board.OrphanTasksHidden` | src/components/routes/ProjectTasks.js:558-568 | a task of an unknown state has a bucket but is drawn in no column |
| `Board.RecomputeAsWritten` | src/components/routes/ProjectTasks.js:134-138 | the grouping is rebuilt from the current lists iff both are non-empty; otherwise the previous grouping stays as it was |
| `Board.Recompute` | src/components/routes/ProjectTasks.js:134-138 | corrected guard: once the states are known the grouping is rebuilt from the current lists, empty task list included; with no states the previous grouping stays |
| `Board.RecomputedBoardCurrent` | src/components/routes/ProjectTasks.js:134-138 | when both lists are non-empty, every drawn column shows exactly the current tasks of its state |
| `Board.StaleCardAfterLastTaskRemoved` | src/components/routes/ProjectTasks.js:134-138 | as written, after the last task goes away the board still draws its card |
| `Board.BoardAlwaysCurrent` | src/components/routes/ProjectTasks.js:134-138 | with the corrected guard, every drawn column shows exactly the current tasks of its state, whatever the previous grouping held |
| `DragDrop.HandleDragEnd` | src/components/routes/ProjectTasks.js:142-164 | no destination means no request; the same column and index means no request; a missing or 0 id yields `UnknownState` for the destination column, the logged branch; otherwise exactly one request, for the dragged id and the destination's mapped id |
| `DragDrop.RequestTargetsNamedState` | src/components/routes/ProjectTasks.js:157-167 | a request targets the last state named like the destination column, and its id is never 0 |
| `DragDrop.DropOnColumnResolves` | src/components/routes/ProjectTasks.js:158-164 | a move onto a drawn column whose state is the last state of that name yields the request for that state's id, or `UnknownState` exactly when that id is 0 |
| `DragDrop.ReorderWithinColumnRequests` | src/components/routes/ProjectTasks.js:149-154 | moving a card to another index of its own column, when the column's name maps to a non-zero id, still requests that column's own state |
| `DragDrop.DoingToDoneScenario` | src/components/routes/ProjectTasks.js:142-167 | dragging task "1" from Doing to Done requests Done's id, 3 |
| `Assignees.SelectedValues` | src/components/routes/ProjectTasks.js:203-207 | a value is collected iff some selected option carries it, and there are never more values than options |
| `Assignees.SelectedValuesConcat` | src/components/routes/ProjectTasks.js:203-207 | collection distributes over concatenation, so values come in option order |
| `Assignees.SelectedUserIds` | src/components/routes/ProjectTasks.js:200-226 | the loop shared by both option handlers returns exactly the selected values in option order |
| `Assignees.AssigneesOnCreate` | src/components/routes/ProjectTasks.js:243-248 | an `ADMIN` with a selection gets that selection; every other case gets exactly `[userId]` |
| `Assignees.CreatorSeesNewTask` | src/components/routes/ProjectTasks.js:243-248 | a new task that a non-admin user creates (or an admin creates without a selection) passes its creator's role filter |
| `Assignees.AdminEmptySelectionAssignsNobody` | src/components/routes/ProjectTasks.js:244-245 | an admin's empty selection is truthy, so the task is assigned to nobody |
| `Dashboard.TaskCountForProject` | src/components/routes/dashboard.js:42-44 | the count never exceeds the number of tasks, and it is 0 iff no task has the project's id |
| `Dashboard.CountIsMatchingPositions` | src/components/routes/dashboard.js:43 | the count equals the number of positions holding a task of the project |
| `Dashboard.CountOrderIndependent` | src/components/routes/dashboard.js:43 | permuting the tasks leaves the count unchanged |
| `Dashboard.CountInsert` | src/components/routes/dashboard.js:43 | inserting a task anywhere adds one to its own project's count and leaves every other count unchanged |

## Findings

| source | as written | input that shows it | evidently intended | confidence | as-written member | corrected member |
|---|---|---|---|---|---|---|
| src/components/routes/ProjectTasks.js:134-138 | the tasks are regrouped only while `tasks.length > 0`, so when the list becomes empty the previous grouping stays | one state "Todo" with one task in it; the task is deleted and the re-fetch returns `[]`; the board keeps drawing the deleted card | once the states are known, regroup on every change of the task list, including the change to an empty list | medium, not executed | `Board.StaleCardAfterLastTaskRemoved` | `Board.BoardAlwaysCurrent` |

## Left out

- HTTP: every axios request and response is left out. The received arrays come in as parameters, and a move is returned as `DragOutcome.ChangeState` without being sent. The source re-fetches only the tasks after a successful move, and that re-fetch is not modelled.
- React: state setters, `useEffect`/`useCallback` re-run rules and `localStorage` are left out. `Board.RecomputeAsWritten` models the guard of the effect, and the current user arrives as `role` and `userId`.
- Asynchronous chains: the `Promise.all` assignment fan-out and the unassign-all then assign chain (`ProjectTasks.js:250-261`, `320-339`) are asynchronous sequencing.
- Dates: date formatting and parsing are foreign library calls.
- `parseInt`: option values are taken to be integers already.
- Form records: the spreads `setNewTaskData({...newTaskData, assigned_users})` and `setEditTaskData(...)` are not modelled. `Assignees.SelectedUserIds` models the loop both handlers share, and the form's `assigned_users` appears only as the `formAssigned` input of `Assignees.AssigneesOnCreate`.
- Epics: the epic fetch does not touch the projection, and neither do task title, description, due date and epic. These are not fields of `Task`.
- Other screens: the CRUD screens, login, route guard, routing and all rendering and styles are not modelled. The only exception is the choice of columns and cards (`Board.RenderedColumns`).
- Inherited keys: JavaScript object keys inherited from `Object.prototype` (`"constructor"`, `"toString"`, `"__proto__"`) are not modelled. A state or task named like one makes the source's lookups read a prototype member. The Dafny maps hold only the keys written to them.
- Key order: JavaScript object key order is not modelled, and the buckets are an unordered map. No drawn output depends on it, because columns follow the sorted states.
- Aliasing: tasks are values in an array. The source writes `assigned_users_names` onto objects that the response shares, and that sharing is not modelled.
- Value types: `state_order` is an integer, so a missing or non-numeric ordinal (a `NaN` comparator result) is not modelled. `project_id` values and user ids are integers of one type, so a string/number mismatch is not modelled. That covers both the `===` of the dashboard count and the strict comparison inside `assigned_users.includes(user.user_id)` (`ProjectTasks.js:55`), which would hide a task whose ids differ only in type.
- Sort algorithm: the source calls the engine's built-in sort. The model uses an insertion sort and claims only the result of a stable sort, not the engine's algorithm.
