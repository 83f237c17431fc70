/** The per-project task count of the dashboard:
    `tasks.filter(task => task.project_id === projectId).length`. */
module Dashboard {
  import opened Entities
  import opened Collections

  /** Selects the tasks of project `projectId`. */
  function InProject(projectId: int): Task -> bool
  {
    (t: Task) => t.projectId == projectId
  }

  function TaskCountForProject(tasks: seq<Task>, projectId: int): (n: nat)
    ensures n <= |tasks|
    ensures n == 0 <==> forall i :: 0 <= i < |tasks| ==> tasks[i].projectId != projectId
  {
    FilterMembers(tasks, InProject(projectId));
    var kept := Filter(tasks, InProject(projectId));
    assert kept != [] ==> kept[0] in kept;
    |kept|
  }

  /** The count is the number of positions holding a task of the project. */
  lemma CountIsMatchingPositions(tasks: seq<Task>, projectId: int)
    ensures TaskCountForProject(tasks, projectId)
            == |set i | 0 <= i < |tasks| && tasks[i].projectId == projectId|
  {
    FilterLengthIsMatchCount(tasks, InProject(projectId));
    assert IndicesWhere(tasks, InProject(projectId)) == set i | 0 <= i < |tasks| && tasks[i].projectId == projectId;
  }

  /** The count does not depend on the order of the tasks. */
  lemma CountOrderIndependent(a: seq<Task>, b: seq<Task>, projectId: int)
    requires multiset(a) == multiset(b)
    ensures TaskCountForProject(a, projectId) == TaskCountForProject(b, projectId)
  {
    FilterPermutation(a, b, InProject(projectId));
  }

  /** Inserting a task anywhere adds one to its own project's count and
      leaves every other project's count unchanged. */
  lemma CountInsert(a: seq<Task>, t: Task, b: seq<Task>, projectId: int)
    ensures TaskCountForProject(a + [t] + b, projectId)
            == TaskCountForProject(a + b, projectId) + (if t.projectId == projectId then 1 else 0)
  {
    var p := InProject(projectId);
    FilterConcat(a + [t], b, p);
    FilterConcat(a, [t], p);
    FilterConcat(a, b, p);
    FilterSingleton(t, p);
  }
}
