/** The records the task board reads, as the REST API delivers them. Only the
    fields the board's logic touches are kept. */
module Entities {
  import opened Options

  /** The role string that lifts every restriction on the board. */
  const ADMIN: string := "ADMIN"

  /** A column of the board: `state_id`, `state_name` and `state_order`. */
  datatype TaskState = TaskState(stateId: int, stateName: string, stateOrder: int)

  /** A user: `user_id` and `username`. */
  datatype User = User(userId: int, username: string)

  /** A task: `task_id`, `project_id`, the name of its state (the join key of
      the board), `assigned_users` (user ids) and `assigned_users_names`, a
      property the board adds (None until it is added; each entry None where
      the id matched no user). */
  datatype Task = Task(
    taskId: int,
    projectId: int,
    stateName: string,
    assignedUsers: seq<int>,
    assignedUsersNames: Option<seq<Option<string>>>)

  /** One `<option>` of a multiple `<select>`: its value (already an integer)
      and whether it is selected. */
  datatype SelectOption = SelectOption(value: int, selected: bool)
}
