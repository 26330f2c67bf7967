/**
 * `getTasks` (server/src/handlers/tasks/get_tasks.ts): the caller's tasks,
 * newest first. The query sorts by `created_at` only, so tasks created at the
 * same instant may come in any order; the model picks one.
 */
module GetTasksHandler {
  import opened Schema
  import opened Tables

  /** Sorted by `created_at`, non-increasing. */
  ghost predicate NewestFirst(ts: seq<Task>)
  {
    forall i, j | 0 <= i < j < |ts| :: ts[i].created_at >= ts[j].created_at
  }

  /** No task appears twice. */
  ghost predicate Distinct(ts: seq<Task>)
  {
    forall i, j | 0 <= i < j < |ts| :: ts[i].id != ts[j].id
  }

  /** The ids the filter `user_id = userId` selects. */
  function OwnedIds(tasks: map<TaskId, Task>, userId: UserId): (ids: set<TaskId>)
    ensures forall k :: k in ids <==> OwnedBy(tasks, k, userId)
  {
    set k | k in tasks && tasks[k].user_id == userId
  }

  /** A non-empty set of tasks has a newest one. */
  lemma {:induction false} NewestExists(tasks: map<TaskId, Task>, ids: set<TaskId>)
    requires ids != {} && ids <= tasks.Keys
    ensures exists k | k in ids :: forall j | j in ids :: tasks[j].created_at <= tasks[k].created_at
  {
    var x :| x in ids;
    if ids - {x} == {} {
      assert ids == {x};
    } else {
      NewestExists(tasks, ids - {x});
      var m :| m in ids - {x} && forall j | j in ids - {x} :: tasks[j].created_at <= tasks[m].created_at;
      if tasks[x].created_at <= tasks[m].created_at {
        assert forall j | j in ids :: tasks[j].created_at <= tasks[m].created_at;
      } else {
        assert forall j | j in ids :: tasks[j].created_at <= tasks[x].created_at;
      }
    }
  }

  /** The rows under `ids`, each once, newest first. */
  ghost function NewestFirstOf(tasks: map<TaskId, Task>, ids: set<TaskId>): (r: seq<Task>)
    requires ids <= tasks.Keys && TaskIdsMatch(tasks)
    ensures |r| == |ids|
    ensures forall t :: t in r <==> t.id in ids && tasks[t.id] == t
    ensures Distinct(r)
    ensures NewestFirst(r)
    ensures r != [] ==> forall j | j in ids :: tasks[j].created_at <= r[0].created_at
    decreases ids
  {
    if ids == {} then []
    else
      NewestExists(tasks, ids);
      var k :| k in ids && forall j | j in ids :: tasks[j].created_at <= tasks[k].created_at;
      [tasks[k]] + NewestFirstOf(tasks, ids - {k})
  }

  /**
   * Exactly the caller's tasks, each once, none of another user's, newest
   * first; the empty list when the caller owns none.
   */
  ghost function GetTasks(tasks: map<TaskId, Task>, userId: UserId): (r: seq<Task>)
    requires TaskIdsMatch(tasks)
    ensures forall t :: t in r <==> t.id in tasks && tasks[t.id] == t && t.user_id == userId
    ensures Distinct(r)
    ensures NewestFirst(r)
    ensures |r| == |OwnedIds(tasks, userId)|
    ensures r == [] <==> forall k | k in tasks :: tasks[k].user_id != userId
  {
    NewestFirstOf(tasks, OwnedIds(tasks, userId))
  }
}
