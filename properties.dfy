/**
 * Properties that span several handlers: what a sign-up lets one log in
 * with, how the login result and the session lookup agree, and what the
 * task listing shows after an insert. The methods at the end replay the
 * server's two-call scenarios (sign up twice, sign in with OAuth twice,
 * delete twice, touch another user's task) against the handlers' contracts.
 */
module Properties {
  import opened Wrappers
  import opened Errors
  import opened Schema
  import opened Tables
  import opened RegisterHandler
  import opened LoginHandler
  import opened CurrentUserHandler
  import opened OAuthHandler
  import opened CreateTaskHandler
  import opened GetTasksHandler
  import opened UpdateTaskHandler
  import opened UpdateTaskStatusHandler
  import opened DeleteTaskHandler

  /**
   * Sign-up then login with the same credentials does not round-trip: login
   * compares the password with the stored hash as plain strings, so it
   * succeeds only for a password that hashes to itself.
   */
  lemma RegisterThenLogin(users: map<UserId, User>, input: RegisterInput, newId: UserId, now: Time, hash: string -> string)
    requires UsersValid(users) && newId !in users && !EmailTaken(users, input.email)
    ensures
      var users' := users[newId := RegisteredUser(newId, input, now, hash)];
      && UsersValid(users')
      && Login(users', LoginInput(input.email, input.password)) ==
           if hash(input.password) == "" then Err(RegisteredWithOAuth)
           else if hash(input.password) == input.password then Ok(ToAuthUser(users'[newId]))
           else Err(InvalidEmailOrPassword)
  {
    var row := RegisteredUser(newId, input, now, hash);
    var users' := users[newId := row];
    InsertUserValid(users, row);
    var found := FindUserByEmail(users', input.email);
    assert users'[newId].email == input.email;
    assert found == Some(row);
  }

  /** So with a real hash, which never maps a password to itself, the new user cannot log in. */
  lemma RegisteredUserCannotLogIn(users: map<UserId, User>, input: RegisterInput, newId: UserId, now: Time, hash: string -> string)
    requires UsersValid(users) && newId !in users && !EmailTaken(users, input.email)
    requires hash(input.password) != input.password && hash(input.password) != ""
    ensures
      var users' := users[newId := RegisteredUser(newId, input, now, hash)];
      UsersValid(users') && Login(users', LoginInput(input.email, input.password)) == Err(InvalidEmailOrPassword)
  {
  }

  /** The user a login returns is the one its id resolves to as the current user. */
  lemma LoginAgreesWithCurrentUser(users: map<UserId, User>, input: LoginInput)
    requires UsersValid(users) && "" !in users
    requires Login(users, input).Ok?
    ensures GetCurrentUser(users, Login(users, input).value.id) == Some(Login(users, input).value)
  {
  }

  /**
   * What a failed login tells the client: its message text is the OAuth hint
   * exactly when the e-mail belongs to an account without a password, so the
   * text gives such accounts away, while an unknown e-mail and a wrong
   * password read alike.
   */
  lemma LoginFailureMessage(users: map<UserId, User>, input: LoginInput)
    requires UsersValid(users) && Login(users, input).Err?
    ensures Message(Login(users, input).error) == Message(RegisteredWithOAuth) <==>
      exists k | k in users :: users[k].email == input.email && !HasPassword(users[k])
    ensures Message(Login(users, input).error) != Message(RegisteredWithOAuth) ==>
      Message(Login(users, input).error) == "Invalid email or password"
  {
  }

  /** After a task is inserted, its owner's listing holds it and exactly one task more than before. */
  lemma CreatedTaskIsListed(tasks: map<TaskId, Task>, t: Task)
    requires TaskIdsMatch(tasks) && t.id !in tasks
    ensures TaskIdsMatch(tasks[t.id := t])
    ensures t in GetTasks(tasks[t.id := t], t.user_id)
    ensures |GetTasks(tasks[t.id := t], t.user_id)| == |GetTasks(tasks, t.user_id)| + 1
  {
    var tasks' := tasks[t.id := t];
    assert TaskIdsMatch(tasks');
    var before := OwnedIds(tasks, t.user_id);
    assert OwnedIds(tasks', t.user_id) == before + {t.id};
    assert t.id !in before;
  }

  /** Inserting a task leaves every other user's listing with the same tasks. */
  lemma OtherListingsUnchanged(tasks: map<TaskId, Task>, t: Task, v: UserId)
    requires TaskIdsMatch(tasks) && t.id !in tasks && v != t.user_id
    ensures TaskIdsMatch(tasks[t.id := t])
    ensures forall x :: x in GetTasks(tasks[t.id := t], v) <==> x in GetTasks(tasks, v)
  {
  }

  /** Registering the same email twice: the second call fails and leaves one row with that email. */
  method RegisterTwice(db: Store, input: RegisterInput, id1: UserId, id2: UserId, now1: Time, now2: Time, hash: string -> string)
    returns (first: Result<UserEnvelope, Error>, second: Result<UserEnvelope, Error>)
    requires db.Valid() && id1 !in db.users && id2 !in db.users && id1 != id2
    requires !EmailTaken(db.users, input.email)
    modifies db
    ensures db.Valid()
    ensures first.Ok? && second == Err(EmailAlreadyExists)
    ensures db.users == old(db.users)[id1 := RegisteredUser(id1, input, now1, hash)]
    ensures forall a, b | a in db.users && b in db.users && db.users[a].email == input.email && db.users[b].email == input.email :: a == b
  {
    first := Register(db, input, id1, now1, hash);
    second := Register(db, input, id2, now2, hash);
  }

  /**
   * Signing in twice with the same provider and code: both calls return the
   * same user, created at most once and linked once, whose `created_at` is
   * kept and whose `updated_at` is the second call's time.
   */
  method OAuthTwice(db: Store, input: OAuthInput, id1: UserId, id2: UserId, now1: Time, now2: Time)
    returns (first: Result<UserEnvelope, Error>, second: Result<UserEnvelope, Error>)
    requires db.Valid() && ProviderIdsUnique(db.users)
    requires id1 !in db.users && id2 !in db.users && id1 != id2
    modifies db
    ensures db.Valid() && ProviderIdsUnique(db.users)
    ensures first.Ok? ==>
      && second.Ok?
      && second.value.user.id == first.value.user.id
      && var id := first.value.user.id;
      && id in db.users
      && db.users[id].updated_at == now2
      && (id in old(db.users) ==> db.users[id].created_at == old(db.users)[id].created_at)
      && (id !in old(db.users) ==> db.users[id].created_at == now1)
      && db.users.Keys <= old(db.users).Keys + {id}
      && forall k | k in db.users && db.users[k].provider_id == db.users[id].provider_id :: k == id
  {
    first := OAuth(db, input, id1, now1);
    if first.Err? {
      second := OAuth(db, input, id2, now2);
      return;
    }
    ghost var id := first.value.user.id;
    ghost var p := FetchOAuthUserData(ProviderName(input.provider), input.code).value;
    assert db.users[id].provider_id == Some(p.user_id);
    second := OAuth(db, input, id2, now2);
  }

  /** Deleting the same task twice: the second call fails. */
  method DeleteTwice(db: Store, taskId: TaskId, userId: UserId)
    returns (first: Result<Task, Error>, second: Result<Task, Error>)
    requires db.Valid() && OwnedBy(db.tasks, taskId, userId)
    modifies db
    ensures db.Valid()
    ensures first == Ok(old(db.tasks)[taskId])
    ensures second == Err(TaskNotFoundOrUnauthorized)
    ensures db.tasks == old(db.tasks) - {taskId}
  {
    first := DeleteTask(db, taskId, userId);
    second := DeleteTask(db, taskId, userId);
  }

  /**
   * A user who does not own a task can neither update it, change its status
   * nor delete it, and the task is unchanged afterwards.
   */
  method ForeignTaskUntouched(db: Store, taskId: TaskId, intruder: UserId, patch: UpdateTaskInput, status: Status, now: Time)
    returns (u: Result<Task, Error>, s: Result<Task, Error>, d: Result<Task, Error>)
    requires db.Valid() && taskId in db.tasks && db.tasks[taskId].user_id != intruder
    requires patch.id == taskId
    modifies db
    ensures db.Valid()
    ensures u == Err(TaskNotFoundOrAccessDenied)
    ensures s == Err(TaskNotFoundOrAccessDenied)
    ensures d == Err(TaskNotFoundOrUnauthorized)
    ensures db.tasks == old(db.tasks) && db.users == old(db.users)
  {
    u := UpdateTask(db, patch, intruder, now);
    s := UpdateTaskStatus(db, UpdateTaskStatusInput(taskId, status), intruder, now);
    d := DeleteTask(db, taskId, intruder);
  }
}
