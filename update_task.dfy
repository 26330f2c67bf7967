/** `updateTask` (server/src/handlers/tasks/update_task.ts): an ownership-checked partial update. */
module UpdateTaskHandler {
  import opened Wrappers
  import opened Errors
  import opened Schema
  import opened Tables

  /**
   * `after` is `before` with each field the input gives overwritten, each
   * field it omits kept, `updated_at` set to `now`, and `id`, `user_id` and
   * `created_at` unchanged.
   */
  ghost predicate IsPatch(before: Task, input: UpdateTaskInput, now: Time, after: Task)
  {
    && after.id == before.id
    && after.user_id == before.user_id
    && after.created_at == before.created_at
    && after.updated_at == now
    && after.title == (if input.title.Some? then input.title.value else before.title)
    && after.description == (if input.description.Some? then input.description.value else before.description)
    && after.due_date == (if input.due_date.Some? then input.due_date.value else before.due_date)
    && after.priority == (if input.priority.Some? then input.priority.value else before.priority)
    && after.status == (if input.status.Some? then input.status.value else before.status)
  }

  /**
   * Fails with "Task not found or access denied", changing nothing, unless a
   * task matches both the id and the caller; otherwise builds the update
   * field by field, writes it to that one task and returns the new row.
   */
  method UpdateTask(db: Store, input: UpdateTaskInput, userId: UserId, now: Time) returns (r: Result<Task, Error>)
    requires db.Valid()
    modifies db
    ensures db.Valid()
    ensures db.users == old(db.users)
    ensures !OwnedBy(old(db.tasks), input.id, userId) ==>
      r == Err(TaskNotFoundOrAccessDenied) && db.tasks == old(db.tasks)
    ensures OwnedBy(old(db.tasks), input.id, userId) ==>
      && r.Ok?
      && IsPatch(old(db.tasks)[input.id], input, now, r.value)
      && db.tasks == old(db.tasks)[input.id := r.value]
  {
    if !OwnedBy(db.tasks, input.id, userId) {
      return Err(TaskNotFoundOrAccessDenied);
    }
    var row := db.tasks[input.id].(updated_at := now);
    if input.title.Some? {
      row := row.(title := input.title.value);
    }
    if input.description.Some? {
      row := row.(description := input.description.value);
    }
    if input.due_date.Some? {
      row := row.(due_date := input.due_date.value);
    }
    if input.priority.Some? {
      row := row.(priority := input.priority.value);
    }
    if input.status.Some? {
      row := row.(status := input.status.value);
    }
    db.tasks := db.tasks[input.id := row];
    r := Ok(row);
  }

  /** An update that gives no field only moves `updated_at`. */
  lemma EmptyPatchOnlyTouchesTimestamp(before: Task, id: TaskId, now: Time, after: Task)
    requires IsPatch(before, UpdateTaskInput(id, None, None, None, None, None), now, after)
    ensures after == before.(updated_at := now)
  {
  }

  /** A patch is determined by its inputs, and applying the same patch twice changes nothing more. */
  lemma PatchDeterminedAndIdempotent(before: Task, input: UpdateTaskInput, now: Time, once: Task, twice: Task)
    requires IsPatch(before, input, now, once)
    requires IsPatch(once, input, now, twice)
    ensures once == twice
    ensures forall other :: IsPatch(before, input, now, other) ==> other == once
  {
  }
}
