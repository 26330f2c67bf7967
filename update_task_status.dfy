/** `updateTaskStatus` (server/src/handlers/tasks/update_task_status.ts): the drag-and-drop status change. */
module UpdateTaskStatusHandler {
  import opened Wrappers
  import opened Errors
  import opened Schema
  import opened Tables

  /**
   * Sets the status and `updated_at` of the task matching both the id and the
   * caller, whatever its current status, and returns the new row; fails with
   * "Task not found or access denied", changing nothing, when no task matches.
   */
  method UpdateTaskStatus(db: Store, input: UpdateTaskStatusInput, userId: UserId, now: Time)
    returns (r: Result<Task, Error>)
    requires db.Valid()
    modifies db
    ensures db.Valid()
    ensures db.users == old(db.users)
    ensures !OwnedBy(old(db.tasks), input.id, userId) ==>
      r == Err(TaskNotFoundOrAccessDenied) && db.tasks == old(db.tasks)
    ensures OwnedBy(old(db.tasks), input.id, userId) ==>
      && r == Ok(old(db.tasks)[input.id].(status := input.status, updated_at := now))
      && db.tasks == old(db.tasks)[input.id := r.value]
  {
    if !OwnedBy(db.tasks, input.id, userId) {
      return Err(TaskNotFoundOrAccessDenied);
    }
    var row := db.tasks[input.id].(status := input.status, updated_at := now);
    db.tasks := db.tasks[input.id := row];
    r := Ok(row);
  }
}
