/** The board projection: tasks grouped into one bucket per state name
    (`organizeTasksByState`), the effect that decides when the grouping is
    recomputed, and the columns drawn from it. */
module Board {
  import opened Options
  import opened Entities
  import opened Collections

  /** Every `state_name` of the known states. */
  function StateNames(states: seq<TaskState>): set<string>
  {
    set i | 0 <= i < |states| :: states[i].stateName
  }

  /** Every `state_name` the tasks carry. */
  function TaskStateNames(tasks: seq<Task>): set<string>
  {
    set i | 0 <= i < |tasks| :: tasks[i].stateName
  }

  /** Selects the tasks whose `state_name` is `name`. */
  function InState(name: string): Task -> bool
  {
    (t: Task) => t.stateName == name
  }

  /** The tasks of one state, in input order. */
  function TasksInState(tasks: seq<Task>, name: string): seq<Task>
  {
    Filter(tasks, InState(name))
  }

  /** Reference definition of the grouping: a bucket for every known state and
      for every state name a task carries, each holding exactly the tasks of
      that name in input order. */
  function Buckets(states: seq<TaskState>, tasks: seq<Task>): map<string, seq<Task>>
  {
    map name | name in StateNames(states) + TaskStateNames(tasks) :: TasksInState(tasks, name)
  }

  /** The first loop of `organizeTasksByState`: an empty bucket per known state. */
  method EmptyBuckets(states: seq<TaskState>) returns (byState: map<string, seq<Task>>)
    ensures byState.Keys == StateNames(states)
    ensures forall name :: name in byState ==> byState[name] == []
  {
    byState := map[];
    var i := 0;
    while i < |states|
      invariant 0 <= i <= |states|
      invariant byState.Keys == StateNames(states[..i])
      invariant forall name :: name in byState ==> byState[name] == []
    {
      assert StateNames(states[..i + 1]) == StateNames(states[..i]) + {states[i].stateName} by {
        assert forall k :: 0 <= k < i ==> states[..i + 1][k] == states[..i][k];
      }
      byState := byState[states[i].stateName := []];
      i := i + 1;
    }
    assert states[..i] == states;
  }

  /** Appending one task to the input appends it to its own bucket only. */
  lemma InStateSnoc(tasks: seq<Task>, t: Task)
    ensures forall name :: TasksInState(tasks + [t], name)
                           == TasksInState(tasks, name) + (if t.stateName == name then [t] else [])
    ensures TaskStateNames(tasks + [t]) == TaskStateNames(tasks) + {t.stateName}
  {
    forall name ensures TasksInState(tasks + [t], name)
                        == TasksInState(tasks, name) + (if t.stateName == name then [t] else []) {
      FilterConcat(tasks, [t], InState(name));
      FilterSingleton(t, InState(name));
    }
    assert forall k :: 0 <= k < |tasks| ==> (tasks + [t])[k] == tasks[k];
    assert (tasks + [t])[|tasks|] == t;
  }

  /** A name no task carries has no tasks. */
  lemma {:induction false} NoTasksInUnseenState(tasks: seq<Task>, name: string)
    requires name !in TaskStateNames(tasks)
    ensures TasksInState(tasks, name) == []
  {
    if tasks != [] {
      assert tasks[0].stateName in TaskStateNames(tasks);
      assert forall k :: 0 <= k < |tasks| - 1 ==> tasks[1..][k] == tasks[k + 1];
      assert TaskStateNames(tasks[1..]) <= TaskStateNames(tasks);
      NoTasksInUnseenState(tasks[1..], name);
    }
  }

  /** The grouping of the tasks `done` so far, on top of the empty buckets. */
  ghost predicate GroupedSoFar(byState: map<string, seq<Task>>, states: seq<TaskState>, done: seq<Task>)
  {
    && byState.Keys == StateNames(states) + TaskStateNames(done)
    && forall name :: name in byState ==> byState[name] == TasksInState(done, name)
  }

  /** Before the second loop: the empty buckets group no task. */
  lemma StartGrouping(byState: map<string, seq<Task>>, states: seq<TaskState>, none: seq<Task>)
    requires none == []
    requires byState.Keys == StateNames(states)
    requires forall name :: name in byState ==> byState[name] == []
    ensures GroupedSoFar(byState, states, none)
  {
    assert TaskStateNames(none) == {};
  }

  /** One step of the second loop: `push` onto an existing bucket, or a new
      bucket holding only this task. */
  function Push(byState: map<string, seq<Task>>, t: Task): map<string, seq<Task>>
  {
    if t.stateName in byState then byState[t.stateName := byState[t.stateName] + [t]]
    else byState[t.stateName := [t]]
  }

  lemma PushGroups(byState: map<string, seq<Task>>, states: seq<TaskState>, done: seq<Task>, t: Task)
    requires GroupedSoFar(byState, states, done)
    ensures GroupedSoFar(Push(byState, t), states, done + [t])
  {
    InStateSnoc(done, t);
    if t.stateName !in byState {
      NoTasksInUnseenState(done, t.stateName);
    }
  }

  /** `organizeTasksByState`: an empty bucket per known state, then every task
      pushed onto the bucket of its `state_name`, which is created on the fly
      for a name no known state has. */
  method OrganizeTasksByState(states: seq<TaskState>, tasks: seq<Task>)
    returns (byState: map<string, seq<Task>>)
    ensures byState == Buckets(states, tasks)
  {
    byState := EmptyBuckets(states);
    StartGrouping(byState, states, tasks[..0]);
    var j := 0;
    while j < |tasks|
      invariant 0 <= j <= |tasks|
      invariant GroupedSoFar(byState, states, tasks[..j])
    {
      var t := tasks[j];
      assert tasks[..j + 1] == tasks[..j] + [t];
      PushGroups(byState, states, tasks[..j], t);
      byState := Push(byState, t);
      j := j + 1;
    }
    assert tasks[..j] == tasks;
    GroupedAll(byState, states, tasks);
  }

  /** Once every task is pushed, the buckets are the reference grouping. */
  lemma GroupedAll(byState: map<string, seq<Task>>, states: seq<TaskState>, tasks: seq<Task>)
    requires GroupedSoFar(byState, states, tasks)
    ensures byState == Buckets(states, tasks)
  {
    var reference := Buckets(states, tasks);
    assert byState.Keys == reference.Keys;
    assert forall name :: name in byState ==> byState[name] == reference[name];
  }

  /** Every known state has a bucket, and every task lies in the bucket of
      its own state name and in no other. */
  lemma BucketsMembership(states: seq<TaskState>, tasks: seq<Task>)
    ensures forall i :: 0 <= i < |states| ==> states[i].stateName in Buckets(states, tasks)
    ensures forall i :: 0 <= i < |tasks| ==> tasks[i].stateName in Buckets(states, tasks)
    ensures forall i, name :: 0 <= i < |tasks| && name in Buckets(states, tasks) ==>
              (tasks[i] in Buckets(states, tasks)[name] <==> name == tasks[i].stateName)
  {
    assert forall i :: 0 <= i < |states| ==> states[i].stateName in StateNames(states);
    assert forall i :: 0 <= i < |tasks| ==> tasks[i].stateName in TaskStateNames(tasks);
    forall name {
      FilterMembers(tasks, InState(name));
    }
  }

  /** Each bucket keeps every occurrence of the tasks of its name and nothing
      else: no task is lost or duplicated by the grouping. */
  lemma BucketMultiplicity(states: seq<TaskState>, tasks: seq<Task>, name: string, t: Task)
    requires name in Buckets(states, tasks)
    ensures multiset(Buckets(states, tasks)[name])[t] == if t.stateName == name then multiset(tasks)[t] else 0
  {
    FilterMultiset(tasks, InState(name));
  }

  /** Tasks keep their input order inside a bucket: the bucket of a
      concatenation is the concatenation of the buckets. */
  lemma BucketOrder(a: seq<Task>, b: seq<Task>, name: string)
    ensures TasksInState(a + b, name) == TasksInState(a, name) + TasksInState(b, name)
  {
    FilterConcat(a, b, InState(name));
  }

  /** The sum of the sizes of the buckets named by `names`. */
  function SumSizes(byState: map<string, seq<Task>>, names: seq<string>): nat
  {
    if names == [] then 0
    else (if names[0] in byState then |byState[names[0]]| else 0) + SumSizes(byState, names[1..])
  }

  /** The sum over `names` of the number of tasks in each state. */
  function SumInState(tasks: seq<Task>, names: seq<string>): nat
  {
    if names == [] then 0 else |TasksInState(tasks, names[0])| + SumInState(tasks, names[1..])
  }

  ghost predicate NoDuplicates(names: seq<string>)
  {
    forall i, j :: 0 <= i < j < |names| ==> names[i] != names[j]
  }

  lemma {:induction false} SumInStateCons(t: Task, rest: seq<Task>, names: seq<string>)
    requires NoDuplicates(names)
    ensures SumInState([t] + rest, names) == SumInState(rest, names) + (if t.stateName in names then 1 else 0)
  {
    if names != [] {
      var name := names[0];
      assert ([t] + rest)[1..] == rest;
      assert TasksInState([t] + rest, name) == (if t.stateName == name then [t] else []) + TasksInState(rest, name);
      assert t.stateName == name ==> t.stateName !in names[1..];
      assert t.stateName in names <==> t.stateName == name || t.stateName in names[1..];
      SumInStateCons(t, rest, names[1..]);
    }
  }

  lemma {:induction false} SumInStateCovers(tasks: seq<Task>, names: seq<string>)
    requires NoDuplicates(names)
    requires forall i :: 0 <= i < |tasks| ==> tasks[i].stateName in names
    ensures SumInState(tasks, names) == |tasks|
  {
    if tasks == [] {
      SumInStateEmpty(names);
    } else {
      assert tasks == [tasks[0]] + tasks[1..];
      SumInStateCons(tasks[0], tasks[1..], names);
      SumInStateCovers(tasks[1..], names);
    }
  }

  lemma {:induction false} SumInStateEmpty(names: seq<string>)
    ensures SumInState([], names) == 0
  {
    if names != [] { SumInStateEmpty(names[1..]); }
  }

  lemma {:induction false} SumSizesOfBuckets(states: seq<TaskState>, tasks: seq<Task>, names: seq<string>)
    requires forall i :: 0 <= i < |names| ==> names[i] in Buckets(states, tasks)
    ensures SumSizes(Buckets(states, tasks), names) == SumInState(tasks, names)
  {
    if names != [] { SumSizesOfBuckets(states, tasks, names[1..]); }
  }

  /** Summed over the distinct bucket names, the bucket sizes add up to the
      number of input tasks. */
  lemma BucketSizesSum(states: seq<TaskState>, tasks: seq<Task>, names: seq<string>)
    requires NoDuplicates(names)
    requires forall name :: name in Buckets(states, tasks) <==> name in names
    ensures SumSizes(Buckets(states, tasks), names) == |tasks|
  {
    forall i | 0 <= i < |tasks| ensures tasks[i].stateName in names {
      assert tasks[i].stateName in TaskStateNames(tasks);
    }
    SumSizesOfBuckets(states, tasks, names);
    SumInStateCovers(tasks, names);
  }

  /** The effect at lines 134-138 as written: the grouping is recomputed only
      when both lists are non-empty; otherwise the previous one stays. */
  function RecomputeAsWritten(previous: map<string, seq<Task>>, tasks: seq<Task>, states: seq<TaskState>)
    : (grouping: map<string, seq<Task>>)
    ensures |tasks| > 0 && |states| > 0 ==> grouping == Buckets(states, tasks)
    ensures !(|tasks| > 0 && |states| > 0) ==> grouping == previous
  {
    if |tasks| > 0 && |states| > 0 then Buckets(states, tasks) else previous
  }

  /** The effect as evidently intended: once the states are known, the
      grouping follows every change of the task list, including to empty. */
  function Recompute(previous: map<string, seq<Task>>, tasks: seq<Task>, states: seq<TaskState>)
    : (grouping: map<string, seq<Task>>)
    ensures |states| > 0 ==> grouping == Buckets(states, tasks)
    ensures |states| == 0 ==> grouping == previous
  {
    if |states| > 0 then Buckets(states, tasks) else previous
  }

  /** One drawn column: the state's name and the cards under it. */
  datatype Column = Column(name: string, cards: seq<Task>)

  /** The columns drawn by `taskStates.map(...)`: one per known state, in
      state order, showing the bucket of its name when one exists. */
  function RenderedColumns(states: seq<TaskState>, byState: map<string, seq<Task>>): (cols: seq<Column>)
    ensures |cols| == |states|
    ensures forall i :: 0 <= i < |states| ==>
              cols[i].name == states[i].stateName
              && cols[i].cards == if states[i].stateName in byState then byState[states[i].stateName] else []
  {
    if states == [] then []
    else
      var name := states[0].stateName;
      [Column(name, if name in byState then byState[name] else [])] + RenderedColumns(states[1..], byState)
  }

  /** A task of a known state shows in exactly the columns of that name; a task
      whose state is unknown has a bucket but shows in no column. */
  lemma RenderedCards(states: seq<TaskState>, tasks: seq<Task>, i: int, c: int)
    requires 0 <= i < |tasks| && 0 <= c < |states|
    ensures tasks[i] in RenderedColumns(states, Buckets(states, tasks))[c].cards
            <==> states[c].stateName == tasks[i].stateName
  {
    assert states[c].stateName in StateNames(states);
    FilterMembers(tasks, InState(states[c].stateName));
  }

  lemma OrphanTasksHidden(states: seq<TaskState>, tasks: seq<Task>, i: int)
    requires 0 <= i < |tasks|
    requires tasks[i].stateName !in StateNames(states)
    ensures tasks[i].stateName in Buckets(states, tasks)
    ensures forall col :: col in RenderedColumns(states, Buckets(states, tasks)) ==> tasks[i] !in col.cards
  {
    assert tasks[i].stateName in TaskStateNames(tasks);
    var cols := RenderedColumns(states, Buckets(states, tasks));
    forall col | col in cols ensures tasks[i] !in col.cards {
      var c :| 0 <= c < |cols| && cols[c] == col;
      RenderedCards(states, tasks, i, c);
      assert states[c].stateName in StateNames(states);
    }
  }

  /** With both lists non-empty the drawn board shows exactly the current
      tasks of each column's state. */
  lemma RecomputedBoardCurrent(previous: map<string, seq<Task>>, tasks: seq<Task>, states: seq<TaskState>)
    requires |tasks| > 0 && |states| > 0
    ensures forall col :: col in RenderedColumns(states, RecomputeAsWritten(previous, tasks, states)) ==>
              col.cards == TasksInState(tasks, col.name)
  {
    var cols := RenderedColumns(states, RecomputeAsWritten(previous, tasks, states));
    forall col | col in cols ensures col.cards == TasksInState(tasks, col.name) {
      var c :| 0 <= c < |cols| && cols[c] == col;
      assert states[c].stateName in StateNames(states);
    }
  }

  /** As written, removing the last task leaves its card on the board: the
      effect skips the recompute when the task list becomes empty. */
  lemma StaleCardAfterLastTaskRemoved()
    ensures var t := Task(1, 1, "Todo", [], None);
            var states := [TaskState(1, "Todo", 1)];
            var shown := RenderedColumns(states, RecomputeAsWritten(Buckets(states, [t]), [], states));
            shown[0].cards == [t] && TasksInState([], "Todo") == []
  {
    var t := Task(1, 1, "Todo", [], None);
    var states := [TaskState(1, "Todo", 1)];
    assert "Todo" in StateNames(states);
    FilterSingleton(t, InState("Todo"));
  }

  /** Recomputed as intended, the drawn board always shows exactly the current
      tasks of each column's state, whatever the previous grouping held. */
  lemma BoardAlwaysCurrent(previous: map<string, seq<Task>>, tasks: seq<Task>, states: seq<TaskState>)
    ensures forall col :: col in RenderedColumns(states, Recompute(previous, tasks, states)) ==>
              col.cards == TasksInState(tasks, col.name)
  {
    var cols := RenderedColumns(states, Recompute(previous, tasks, states));
    forall col | col in cols ensures col.cards == TasksInState(tasks, col.name) {
      var c :| 0 <= c < |cols| && cols[c] == col;
      assert states[c].stateName in StateNames(states);
    }
  }

  /** States Todo, Doing, Done and one task in Doing: three buckets, the
      task alone in Doing. */
  lemma ThreeColumnScenario()
    ensures var t := Task(1, 1, "Doing", [], None);
            var states := [TaskState(1, "Todo", 1), TaskState(2, "Doing", 2), TaskState(3, "Done", 3)];
            Buckets(states, [t]) == map["Todo" := [], "Doing" := [t], "Done" := []]
  {
    var t := Task(1, 1, "Doing", [], None);
    var states := [TaskState(1, "Todo", 1), TaskState(2, "Doing", 2), TaskState(3, "Done", 3)];
    var expected := map["Todo" := [], "Doing" := [t], "Done" := []];
    assert StateNames(states) == {"Todo", "Doing", "Done"} by {
      assert states[0].stateName == "Todo" && states[1].stateName == "Doing" && states[2].stateName == "Done";
    }
    assert TaskStateNames([t]) == {"Doing"} by { assert [t][0] == t; }
    assert "Todo"[0] != "Doing"[0] && "Done"[2] != "Doing"[2];
    FilterSingleton(t, InState("Todo"));
    FilterSingleton(t, InState("Doing"));
    FilterSingleton(t, InState("Done"));
    assert GroupedSoFar(expected, states, [t]);
    GroupedAll(expected, states, [t]);
  }
}
