/** `createTask` (server/src/handlers/tasks/create_task.ts): insert a task owned by the caller. */
module CreateTaskHandler {
  import opened Wrappers
  import opened Errors
  import opened Schema
  import opened Tables

  /**
   * Inserts one task with the input's fields and the caller as owner, and
   * returns the stored row. The foreign key refuses an owner that is not a
   * user, and then nothing is added. `newId` is the id the database generates.
   */
  method CreateTask(db: Store, input: CreateTaskInput, userId: UserId, newId: TaskId, now: Time)
    returns (r: Result<Task, Error>)
    requires db.Valid() && newId !in db.tasks
    modifies db
    ensures db.Valid()
    ensures db.users == old(db.users)
    ensures userId !in old(db.users) ==>
      r == Err(ForeignKeyViolation) && db.tasks == old(db.tasks)
    ensures userId in old(db.users) ==>
      && r.Ok?
      && db.tasks == old(db.tasks)[newId := r.value]
      && r.value.id == newId
      && r.value.title == input.title
      && r.value.description == input.description
      && r.value.due_date == input.due_date
      && r.value.priority == input.priority
      && r.value.status == input.status
      && r.value.user_id == userId
      && r.value.created_at == now && r.value.updated_at == now
  {
    var row := InsertedTask(newId, NewTask(input.title, input.description, input.due_date, input.priority, Some(input.status), userId), now);
    if userId !in db.users {
      return Err(ForeignKeyViolation);
    }
    db.tasks := db.tasks[newId := row];
    r := Ok(row);
  }
}
