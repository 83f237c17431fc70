/** The decision part of `handleDragEnd`: a drop of a card either does
    nothing, fails to resolve its column, or yields one `change-state`
    request. The request itself and the re-fetch of the tasks that follows
    its success are left to the caller. */
module DragDrop {
  import opened Options
  import opened Entities
  import opened Collections
  import TaskStates

  /** A position on the board: the column (`droppableId`, a state name) and
      the index of the card in it. */
  datatype Location = Location(droppableId: string, index: int)

  /** What the drag-and-drop library reports when a drag ends. */
  datatype DropResult = DropResult(source: Location, destination: Option<Location>, draggableId: string)

  /** `Ignored`: returned early without a message; `UnknownState`: no usable
      id for the destination column (logged); `ChangeState`: the request
      `PUT /api/tasks/{taskId}/change-state/{stateId}`. */
  datatype DragOutcome =
    | Ignored
    | UnknownState(stateName: string)
    | ChangeState(taskId: string, stateId: int)

  /** JavaScript truthiness of `stateNameToIdMap[name]` for a numeric id:
      undefined and 0 are falsy. */
  predicate HasTruthyId(nameToId: map<string, int>, name: string)
  {
    name in nameToId && nameToId[name] != 0
  }

  function HandleDragEnd(result: DropResult, nameToId: map<string, int>): (o: DragOutcome)
    ensures result.destination.None? ==> o == Ignored
    ensures result.destination.Some? && result.source == result.destination.value ==> o == Ignored
    ensures o.ChangeState? <==>
              && result.destination.Some?
              && result.source != result.destination.value
              && HasTruthyId(nameToId, result.destination.value.droppableId)
    ensures o.ChangeState? ==>
              o.taskId == result.draggableId && o.stateId == nameToId[result.destination.value.droppableId]
    ensures o.UnknownState? <==>
              && result.destination.Some?
              && result.source != result.destination.value
              && !HasTruthyId(nameToId, result.destination.value.droppableId)
    ensures o.UnknownState? ==> o.stateName == result.destination.value.droppableId
  {
    match result.destination
    case None => Ignored
    case Some(destination) =>
      if result.source.droppableId == destination.droppableId && result.source.index == destination.index then
        Ignored
      else if !HasTruthyId(nameToId, destination.droppableId) then
        UnknownState(destination.droppableId)
      else
        ChangeState(result.draggableId, nameToId[destination.droppableId])
  }

  /** With the lookup built from the sorted states, a request moves the task
      to the last state bearing the destination column's name, and never to a
      state whose id is 0. */
  lemma RequestTargetsNamedState(result: DropResult, states: seq<TaskState>)
    requires HandleDragEnd(result, TaskStates.NameToId(states)).ChangeState?
    ensures var o := HandleDragEnd(result, TaskStates.NameToId(states));
            exists i :: 0 <= i < |states| && states[i].stateName == result.destination.value.droppableId
                        && states[i].stateId == o.stateId && o.stateId != 0
                        && forall j :: i < j < |states| ==> states[j].stateName != states[i].stateName
  {
    var name := result.destination.value.droppableId;
    LastWinsSource(states, TaskStates.StateNameOf, TaskStates.StateIdOf, name);
  }

  /** Dropping onto a drawn column somewhere else than where the card started
      always resolves, unless the (last) state of that name has id 0; in that
      case nothing is requested and the move is lost. */
  lemma DropOnColumnResolves(result: DropResult, states: seq<TaskState>, c: int)
    requires 0 <= c < |states|
    requires forall j :: c < j < |states| ==> states[j].stateName != states[c].stateName
    requires result.destination.Some? && result.destination.value.droppableId == states[c].stateName
    requires result.source != result.destination.value
    ensures var o := HandleDragEnd(result, TaskStates.NameToId(states));
            && (states[c].stateId != 0 ==> o == ChangeState(result.draggableId, states[c].stateId))
            && (states[c].stateId == 0 ==> o == UnknownState(states[c].stateName))
  {
    LastWinsLast(states, TaskStates.StateNameOf, TaskStates.StateIdOf, c);
  }

  /** Reordering a card inside its own column is not a no-op: it re-sends the
      column's own state. */
  lemma ReorderWithinColumnRequests(result: DropResult, nameToId: map<string, int>)
    requires result.destination.Some?
    requires result.destination.value.droppableId == result.source.droppableId
    requires result.destination.value.index != result.source.index
    requires HasTruthyId(nameToId, result.source.droppableId)
    ensures HandleDragEnd(result, nameToId) == ChangeState(result.draggableId, nameToId[result.source.droppableId])
  {
  }

  /** Dragging task "1" from Doing to Done requests Done's id. */
  lemma DoingToDoneScenario()
    ensures var states := [TaskState(1, "Todo", 1), TaskState(2, "Doing", 2), TaskState(3, "Done", 3)];
            HandleDragEnd(DropResult(Location("Doing", 0), Some(Location("Done", 0)), "1"), TaskStates.NameToId(states))
            == ChangeState("1", 3)
  {
    var states := [TaskState(1, "Todo", 1), TaskState(2, "Doing", 2), TaskState(3, "Done", 3)];
    DropOnColumnResolves(DropResult(Location("Doing", 0), Some(Location("Done", 0)), "1"), states, 2);
  }
}
