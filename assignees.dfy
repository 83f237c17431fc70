/** The assignee choice of the task forms: the values of the selected
    `<option>`s of the multiple `<select>`, and the list a new task is
    assigned to on creation. */
module Assignees {
  import opened Options
  import opened Entities
  import TaskPreparation

  /** The values of the selected options, in option order. */
  function SelectedValues(options: seq<SelectOption>): (r: seq<int>)
    ensures |r| <= |options|
    ensures forall v :: v in r ==> exists i :: 0 <= i < |options| && options[i].selected && options[i].value == v
    ensures forall i :: 0 <= i < |options| && options[i].selected ==> options[i].value in r
  {
    if options == [] then []
    else (if options[0].selected then [options[0].value] else []) + SelectedValues(options[1..])
  }

  /** Selection keeps option order: it distributes over concatenation. */
  lemma {:induction false} SelectedValuesConcat(a: seq<SelectOption>, b: seq<SelectOption>)
    ensures SelectedValues(a + b) == SelectedValues(a) + SelectedValues(b)
  {
    if a == [] {
      assert a + b == b;
    } else {
      assert (a + b)[0] == a[0];
      assert (a + b)[1..] == a[1..] + b;
      SelectedValuesConcat(a[1..], b);
    }
  }

  /** The loop shared by `handleChangeAssignedUsers` and
      `handleChangeEditAssignedUsers`: push the value of every selected option. */
  method SelectedUserIds(options: array<SelectOption>) returns (selectedUsers: seq<int>)
    ensures selectedUsers == SelectedValues(options[..])
  {
    selectedUsers := [];
    var i := 0;
    while i < options.Length
      invariant 0 <= i <= options.Length
      invariant selectedUsers == SelectedValues(options[..i])
    {
      assert options[..i + 1] == options[..i] + [options[i]];
      SelectedValuesConcat(options[..i], [options[i]]);
      assert SelectedValues([options[i]]) == (if options[i].selected then [options[i].value] else []) + SelectedValues([]);
      if options[i].selected {
        selectedUsers := selectedUsers + [options[i].value];
      }
      i := i + 1;
    }
    assert options[..i] == options[..];
  }

  /** The users a newly created task is assigned to. `formAssigned` is the
      form's `assigned_users`: None until the select was touched. An array,
      even an empty one, is truthy. */
  function AssigneesOnCreate(role: string, formAssigned: Option<seq<int>>, userId: int): (r: seq<int>)
    ensures role == ADMIN && formAssigned.Some? ==> r == formAssigned.value
    ensures role != ADMIN || formAssigned.None? ==> r == [userId]
  {
    if role == ADMIN && formAssigned.Some? then formAssigned.value else [userId]
  }

  /** An ordinary user's new task, assigned as chosen, passes the role filter
      when the tasks are fetched again, so its creator sees it on the board. */
  lemma CreatorSeesNewTask(t: Task, role: string, formAssigned: Option<seq<int>>, userId: int)
    requires role != ADMIN || formAssigned.None?
    requires t.assignedUsers == AssigneesOnCreate(role, formAssigned, userId)
    ensures t in TaskPreparation.VisibleTasks([t], role, userId)
  {
    assert userId in [userId];
  }

  /** An administrator who cleared the selection creates a task assigned to
      nobody, not to themselves. */
  lemma AdminEmptySelectionAssignsNobody(userId: int)
    ensures AssigneesOnCreate(ADMIN, Some([]), userId) == []
  {
  }
}
