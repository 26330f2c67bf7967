/** `login` (server/src/handlers/auth/login.ts): a read-only check of an email and password. */
module LoginHandler {
  import opened Wrappers
  import opened Errors
  import opened Schema
  import opened Tables

  /** The `select ... where email = ?` lookup; the unique constraint makes its answer unique. */
  function FindUserByEmail(users: map<UserId, User>, email: string): (r: Option<User>)
    requires UsersValid(users)
    ensures r.Some? <==> EmailTaken(users, email)
    ensures r.Some? ==> r.value.id in users && users[r.value.id] == r.value && r.value.email == email
  {
    if EmailTaken(users, email) then
      var k :| k in users && users[k].email == email;
      Some(users[k])
    else
      None
  }

  /** `user.password_hash` is truthy: present and not the empty string. */
  predicate HasPassword(u: User)
  {
    u.password_hash.Some? && u.password_hash.value != ""
  }

  /**
   * Three outcomes: an unknown email or a wrong password give the same
   * error; a user without a stored password is told to use OAuth; otherwise
   * the sanitized user. The password is compared with the stored
   * `password_hash` as a plain string, with no hashing.
   */
  function Login(users: map<UserId, User>, input: LoginInput): (r: Result<AuthUser, Error>)
    requires UsersValid(users)
    ensures !EmailTaken(users, input.email) ==> r == Err(InvalidEmailOrPassword)
    ensures r == Err(RegisteredWithOAuth) <==>
      exists k | k in users :: users[k].email == input.email && !HasPassword(users[k])
    ensures r.Ok? <==>
      exists k | k in users :: users[k].email == input.email && HasPassword(users[k]) && users[k].password_hash.value == input.password
    ensures r.Err? ==> r.error == InvalidEmailOrPassword || r.error == RegisteredWithOAuth
    ensures r.Ok? ==>
      && r.value.id in users
      && users[r.value.id].email == input.email
      && r.value == ToAuthUser(users[r.value.id])
  {
    match FindUserByEmail(users, input.email)
    case None => Err(InvalidEmailOrPassword)
    case Some(user) =>
      if !HasPassword(user) then Err(RegisteredWithOAuth)
      else if input.password != user.password_hash.value then Err(InvalidEmailOrPassword)
      else Ok(ToAuthUser(user))
  }
}
