/** `deleteTask` (server/src/handlers/tasks/delete_task.ts): an ownership-checked delete. */
module DeleteTaskHandler {
  import opened Wrappers
  import opened Errors
  import opened Schema
  import opened Tables

  /**
   * Removes the task matching both the id and the caller and returns the
   * removed row; fails with "Task not found or unauthorized", changing
   * nothing, when no task matches.
   */
  method DeleteTask(db: Store, taskId: TaskId, userId: UserId) returns (r: Result<Task, Error>)
    requires db.Valid()
    modifies db
    ensures db.Valid()
    ensures db.users == old(db.users)
    ensures !OwnedBy(old(db.tasks), taskId, userId) ==>
      r == Err(TaskNotFoundOrUnauthorized) && db.tasks == old(db.tasks)
    ensures OwnedBy(old(db.tasks), taskId, userId) ==>
      && r == Ok(old(db.tasks)[taskId])
      && db.tasks == old(db.tasks) - {taskId}
  {
    if !OwnedBy(db.tasks, taskId, userId) {
      return Err(TaskNotFoundOrUnauthorized);
    }
    r := Ok(db.tasks[taskId]);
    db.tasks := db.tasks - {taskId};
  }
}
