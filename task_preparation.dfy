/** The success handler of the project-task fetch: the `user_id -> username`
    lookup, the `assigned_users_names` property written onto every received
    task, and the filter that leaves an ordinary user only the tasks assigned
    to them. */
module TaskPreparation {
  import opened Options
  import opened Entities
  import opened Collections

  function UserIdOf(u: User): int { u.userId }

  function UsernameOf(u: User): string { u.username }

  /** The object `userIdToNameMap` after `userIdToNameMap[user.user_id] =
      user.username` for every user, in list order. */
  function UserNames(users: seq<User>): map<int, string>
  {
    LastWins(users, UserIdOf, UsernameOf)
  }

  /** Builds the `user_id -> username` lookup with a loop over the users:
      every user's id is a key, no other key exists, and a repeated id maps
      to the username of its last user in list order. */
  method BuildUserNames(users: seq<User>) returns (names: map<int, string>)
    ensures names == UserNames(users)
    ensures forall i :: 0 <= i < |users| ==> users[i].userId in names
    ensures forall id :: id in names ==>
              exists i :: 0 <= i < |users| && users[i].userId == id && names[id] == users[i].username
                          && forall j :: i < j < |users| ==> users[j].userId != id
  {
    names := map[];
    var i := 0;
    while i < |users|
      invariant 0 <= i <= |users|
      invariant names == UserNames(users[..i])
    {
      assert users[..i + 1][..i] == users[..i];
      names := names[users[i].userId := users[i].username];
      i := i + 1;
    }
    assert users[..i] == users;
    LastWinsSources(users, UserIdOf, UsernameOf);
  }

  /** `userIdToNameMap[userId]`: undefined when no user has that id. */
  function Lookup(names: map<int, string>, id: int): Option<string>
  {
    if id in names then Some(names[id]) else None
  }

  /** `assigned_users.map((userId) => userIdToNameMap[userId])`. */
  function NamesOf(ids: seq<int>, names: map<int, string>): (r: seq<Option<string>>)
    ensures |r| == |ids|
    ensures forall i :: 0 <= i < |ids| ==> r[i] == Lookup(names, ids[i])
  {
    if ids == [] then [] else [Lookup(names, ids[0])] + NamesOf(ids[1..], names)
  }

  /** One task with `assigned_users_names` set; nothing else about it changes. */
  function Enrich(t: Task, names: map<int, string>): (r: Task)
    ensures r.assignedUsersNames.Some? && |r.assignedUsersNames.value| == |t.assignedUsers|
    ensures r.(assignedUsersNames := t.assignedUsersNames) == t
  {
    t.(assignedUsersNames := Some(NamesOf(t.assignedUsers, names)))
  }

  /** Every task enriched, positions unchanged. */
  function EnrichAll(ts: seq<Task>, names: map<int, string>): (r: seq<Task>)
    ensures |r| == |ts|
    ensures forall i :: 0 <= i < |ts| ==> r[i] == Enrich(ts[i], names)
  {
    if ts == [] then [] else [Enrich(ts[0], names)] + EnrichAll(ts[1..], names)
  }

  /** `tasksData.forEach((task) => { task.assigned_users_names = ... })`:
      writes the names onto every task of the received array. */
  method EnrichInPlace(tasks: array<Task>, names: map<int, string>)
    modifies tasks
    ensures tasks[..] == EnrichAll(old(tasks[..]), names)
  {
    var i := 0;
    while i < tasks.Length
      invariant 0 <= i <= tasks.Length
      invariant forall k :: 0 <= k < i ==> tasks[k] == Enrich(old(tasks[k]), names)
      invariant forall k :: i <= k < tasks.Length ==> tasks[k] == old(tasks[k])
    {
      tasks[i] := Enrich(tasks[i], names);
      i := i + 1;
    }
  }

  /** An enriched name entry says exactly what the user list holds: it is
      missing iff no user has that id, and otherwise it is the username of
      the last user with that id. */
  lemma EnrichedNameFromUsers(users: seq<User>, t: Task, i: int)
    requires 0 <= i < |t.assignedUsers|
    ensures var entry := Enrich(t, UserNames(users)).assignedUsersNames.value[i];
            && (entry.None? <==> forall j :: 0 <= j < |users| ==> users[j].userId != t.assignedUsers[i])
            && (entry.Some? ==>
                  exists j :: 0 <= j < |users| && users[j].userId == t.assignedUsers[i]
                              && users[j].username == entry.value
                              && forall k :: j < k < |users| ==> users[k].userId != t.assignedUsers[i])
  {
    var id := t.assignedUsers[i];
    var names := UserNames(users);
    if id in names {
      LastWinsSource(users, UserIdOf, UsernameOf, id);
    }
  }

  /** Selects the tasks whose `assigned_users` include `userId`. */
  function AssignedTo(userId: int): Task -> bool
  {
    (t: Task) => userId in t.assignedUsers
  }

  /** The tasks shown to the current user: all of them for `ADMIN`,
      otherwise those assigned to the user. */
  function VisibleTasks(tasks: seq<Task>, role: string, userId: int): (r: seq<Task>)
    ensures role == ADMIN ==> r == tasks
    ensures role != ADMIN ==> forall t :: t in r ==> t in tasks && userId in t.assignedUsers
    ensures role != ADMIN ==> forall i :: 0 <= i < |tasks| && userId in tasks[i].assignedUsers ==> tasks[i] in r
  {
    if role == ADMIN then tasks
    else
      FilterMembers(tasks, AssignedTo(userId));
      Filter(tasks, AssignedTo(userId))
  }

  /** The role filter keeps input order: it distributes over concatenation,
      and a single task stays iff it is visible. */
  lemma VisibleTasksOrder(a: seq<Task>, b: seq<Task>, role: string, userId: int)
    ensures VisibleTasks(a + b, role, userId) == VisibleTasks(a, role, userId) + VisibleTasks(b, role, userId)
    ensures forall t :: VisibleTasks([t], role, userId) == if role == ADMIN || userId in t.assignedUsers then [t] else []
  {
    FilterConcat(a, b, AssignedTo(userId));
    forall t ensures VisibleTasks([t], role, userId) == if role == ADMIN || userId in t.assignedUsers then [t] else [] {
      FilterSingleton(t, AssignedTo(userId));
    }
  }

  /** Enriching and then filtering, as the handler does, gives the same list
      as filtering and then enriching: every surviving task is enriched and
      the filter does not look at the names. */
  lemma {:induction false} EnrichThenFilter(ts: seq<Task>, names: map<int, string>, role: string, userId: int)
    ensures VisibleTasks(EnrichAll(ts, names), role, userId) == EnrichAll(VisibleTasks(ts, role, userId), names)
  {
    if role != ADMIN && ts != [] {
      var p := AssignedTo(userId);
      EnrichThenFilter(ts[1..], names, role, userId);
      assert EnrichAll(ts, names)[1..] == EnrichAll(ts[1..], names);
      if p(ts[0]) {
        assert Filter(ts, p) == [ts[0]] + Filter(ts[1..], p);
        assert EnrichAll([ts[0]] + Filter(ts[1..], p), names)[1..] == EnrichAll(Filter(ts[1..], p), names);
      } else {
        assert Filter(ts, p) == Filter(ts[1..], p);
      }
    }
  }

  /** Every task the handler keeps carries its names, one per assigned id. */
  lemma SurvivorsEnriched(ts: seq<Task>, names: map<int, string>, role: string, userId: int)
    ensures forall t :: t in VisibleTasks(EnrichAll(ts, names), role, userId) ==>
              t.assignedUsersNames.Some? && |t.assignedUsersNames.value| == |t.assignedUsers|
  {
    var enriched := EnrichAll(ts, names);
    var visible := VisibleTasks(enriched, role, userId);
    forall t | t in visible
      ensures t.assignedUsersNames.Some? && |t.assignedUsersNames.value| == |t.assignedUsers|
    {
      assert t in enriched;
      var i :| 0 <= i < |enriched| && enriched[i] == t;
      assert t == Enrich(ts[i], names);
    }
  }

  /** The success handler of the project-task fetch: builds the user lookup,
      enriches the received array in place, then applies the role filter. */
  method PrepareTasks(tasksData: array<Task>, users: seq<User>, role: string, userId: int)
    returns (visible: seq<Task>)
    modifies tasksData
    ensures tasksData[..] == EnrichAll(old(tasksData[..]), UserNames(users))
    ensures visible == VisibleTasks(tasksData[..], role, userId)
  {
    var names := BuildUserNames(users);
    EnrichInPlace(tasksData, names);
    visible := VisibleTasks(tasksData[..], role, userId);
  }

  /** Users 5 "ann" and 9 "bo": ids [5, 9] give ["ann", "bo"]; ids [5, 42]
      give ["ann", undefined]. */
  lemma EnrichScenario()
    ensures var users := [User(5, "ann"), User(9, "bo")];
            && NamesOf([5, 9], UserNames(users)) == [Some("ann"), Some("bo")]
            && NamesOf([5, 42], UserNames(users)) == [Some("ann"), None]
  {
    var users := [User(5, "ann"), User(9, "bo")];
    assert users[..1] == [User(5, "ann")];
    assert [User(5, "ann")][..0] == [];
    assert UserNames(users) == map[5 := "ann", 9 := "bo"];
    assert [5, 9][1..] == [9] && [9][1..] == [];
    assert [5, 42][1..] == [42] && [42][1..] == [];
  }
}
