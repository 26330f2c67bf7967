/**
 * The two tables of server/src/db/schema.ts as an in-memory store. Each
 * column constraint becomes part of the store invariant: primary keys
 * (a row sits under its own id), the unique email, the task's foreign key
 * to its owner, and the defaults an insert falls back on.
 */
module Tables {
  import opened Wrappers
  import opened Schema

  type UserId = string
  type TaskId = string

  /** A row of `users`. Only `email` is mandatory besides the id and timestamps. */
  datatype User = User(
    id: UserId,
    email: string,
    name: Option<string>,
    avatar_url: Option<string>,
    password_hash: Option<string>,
    provider: Option<string>,
    provider_id: Option<string>,
    created_at: Time,
    updated_at: Time)

  /** The values of an insert into `users`; id and timestamps come from the column defaults. */
  datatype NewUser = NewUser(
    email: string,
    name: Option<string>,
    avatar_url: Option<string>,
    password_hash: Option<string>,
    provider: Option<string>,
    provider_id: Option<string>)

  /** A row of `tasks`: every column is non-null. */
  datatype Task = Task(
    id: TaskId,
    title: string,
    description: string,
    due_date: Time,
    priority: Priority,
    status: Status,
    user_id: UserId,
    created_at: Time,
    updated_at: Time)

  /** The values of an insert into `tasks`; `status` may be omitted. */
  datatype NewTask = NewTask(
    title: string,
    description: string,
    due_date: Time,
    priority: Priority,
    status: Option<Status>,
    user_id: UserId)

  /** The row an insert creates: `defaultRandom()` gives `id`, `defaultNow()` both timestamps. */
  function InsertedUser(id: UserId, values: NewUser, now: Time): (u: User)
    ensures u.id == id && u.created_at == u.updated_at == now
    ensures ToAuthUser(u) == AuthUser(id, values.email, values.name, values.avatar_url)
    ensures (u.password_hash, u.provider, u.provider_id) == (values.password_hash, values.provider, values.provider_id)
  {
    User(id, values.email, values.name, values.avatar_url, values.password_hash,
         values.provider, values.provider_id, now, now)
  }

  /** The row an insert creates; a status left out falls back on the column default "to do". */
  function InsertedTask(id: TaskId, values: NewTask, now: Time): (t: Task)
    ensures values.status.None? ==> t.status == ToDo
    ensures values.status.Some? ==> t.status == values.status.value
    ensures t.created_at == t.updated_at == now
  {
    var status := if values.status.Some? then values.status.value else ToDo;
    Task(id, values.title, values.description, values.due_date, values.priority, status,
         values.user_id, now, now)
  }

  /** The sanitized view the auth handlers return. */
  function ToAuthUser(u: User): AuthUser
  {
    AuthUser(u.id, u.email, u.name, u.avatar_url)
  }

  /** Is some user's email exactly `email` (a case-sensitive match)? */
  predicate EmailTaken(users: map<UserId, User>, email: string)
  {
    exists k | k in users :: users[k].email == email
  }

  /** Primary key and `unique()` on email. */
  ghost predicate UsersValid(users: map<UserId, User>)
  {
    && (forall k | k in users :: users[k].id == k)
    && (forall a, b | a in users && b in users && users[a].email == users[b].email :: a == b)
  }

  /** Primary key of `tasks`: each row sits under its own id. */
  ghost predicate TaskIdsMatch(tasks: map<TaskId, Task>)
  {
    forall k | k in tasks :: tasks[k].id == k
  }

  /** Primary key and the foreign key `user_id` references `users.id`. */
  ghost predicate TasksValid(tasks: map<TaskId, Task>, users: map<UserId, User>)
  {
    && TaskIdsMatch(tasks)
    && (forall k | k in tasks :: tasks[k].user_id in users)
  }

  /**
   * No two users share a provider id. The schema does not enforce this; it
   * is what the lookup-before-insert of `oauth` keeps true.
   */
  ghost predicate ProviderIdsUnique(users: map<UserId, User>)
  {
    forall a, b | a in users && b in users && users[a].provider_id.Some? && users[a].provider_id == users[b].provider_id :: a == b
  }

  /** The filter `id = taskId AND user_id = userId` of every task mutation matches a row. */
  predicate OwnedBy(tasks: map<TaskId, Task>, taskId: TaskId, userId: UserId)
  {
    taskId in tasks && tasks[taskId].user_id == userId
  }

  /** An insert keeps the unique constraint exactly when the new email is not taken. */
  lemma InsertUserValid(users: map<UserId, User>, u: User)
    requires UsersValid(users) && u.id !in users
    ensures UsersValid(users[u.id := u]) <==> !EmailTaken(users, u.email)
  {
    if EmailTaken(users, u.email) {
      var k :| k in users && users[k].email == u.email;
      var users' := users[u.id := u];
      assert users'[k].email == users'[u.id].email && k != u.id;
    }
  }

  /** Changing a row in place, keeping its id and email, keeps the users constraints. */
  lemma UpdateUserValid(users: map<UserId, User>, k: UserId, u: User)
    requires UsersValid(users) && k in users
    requires u.id == k && u.email == users[k].email
    ensures UsersValid(users[k := u])
  {
  }

  /** Both tables, with the foreign key between them. */
  class Store {
    var users: map<UserId, User>
    var tasks: map<TaskId, Task>

    /** The table constraints every handler keeps: primary keys, unique e-mail, and the foreign key. */
    ghost predicate Valid()
      reads this
    {
      UsersValid(users) && TasksValid(tasks, users)
    }

    /** Empty tables. */
    constructor ()
      ensures Valid()
      ensures users == map[] && tasks == map[]
    {
      users := map[];
      tasks := map[];
    }

    /**
     * Deleting a user: `onDelete: 'cascade'` deletes that user's tasks with it.
     * No handler of the server deletes users; this is the constraint itself.
     */
    method DeleteUser(id: UserId) returns (deleted: Option<User>)
      requires Valid()
      modifies this
      ensures Valid()
      ensures deleted == if id in old(users) then Some(old(users)[id]) else None
      ensures users == old(users) - {id}
      ensures tasks == map k | k in old(tasks) && old(tasks)[k].user_id != id :: old(tasks)[k]
      ensures forall k | k in tasks :: tasks[k].user_id != id
    {
      deleted := if id in users then Some(users[id]) else None;
      users := users - {id};
      tasks := map k | k in tasks && tasks[k].user_id != id :: tasks[k];
    }
  }
}
