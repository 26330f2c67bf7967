/** `register` (server/src/handlers/auth/register.ts): a local-password sign-up. */
module RegisterHandler {
  import opened Wrappers
  import opened Errors
  import opened Schema
  import opened Tables

  /** `input.name || null`: an absent or empty name is stored as null. */
  function NameOrNull(name: Option<string>): (r: Option<string>)
    ensures r.None? <==> name.None? || name.value == ""
    ensures r.Some? ==> r == name
  {
    if name.Some? && name.value != "" then name else None
  }

  /** The row `register` inserts: a hashed password, provider "email", no provider id, no avatar. */
  function RegisteredUser(id: UserId, input: RegisterInput, now: Time, hash: string -> string): (u: User)
    ensures u.id == id && u.email == input.email
    ensures u.name == NameOrNull(input.name)
    ensures u.password_hash == Some(hash(input.password))
    ensures u.provider == Some("email") && u.provider_id == None && u.avatar_url == None
    ensures u.created_at == now && u.updated_at == now
  {
    InsertedUser(id, NewUser(input.email, NameOrNull(input.name), None, Some(hash(input.password)), Some("email"), None), now)
  }

  /**
   * Refuses an email some user already has; otherwise stores exactly one new
   * row, with the password passed through `hash` (the salted
   * `Bun.password.hash`, given here as a parameter), and returns its
   * sanitized view. `newId` is the id the database generates.
   */
  method Register(db: Store, input: RegisterInput, newId: UserId, now: Time, hash: string -> string)
    returns (r: Result<UserEnvelope, Error>)
    requires db.Valid() && newId !in db.users
    modifies db
    ensures db.Valid()
    ensures db.tasks == old(db.tasks)
    ensures EmailTaken(old(db.users), input.email) ==>
      r == Err(EmailAlreadyExists) && db.users == old(db.users)
    ensures !EmailTaken(old(db.users), input.email) ==>
      && db.users == old(db.users)[newId := RegisteredUser(newId, input, now, hash)]
      && r == Ok(UserEnvelope(ToAuthUser(db.users[newId])))
    ensures ProviderIdsUnique(old(db.users)) ==> ProviderIdsUnique(db.users)
  {
    if EmailTaken(db.users, input.email) {
      return Err(EmailAlreadyExists);
    }
    var passwordHash := hash(input.password);
    var row := InsertedUser(newId, NewUser(input.email, NameOrNull(input.name), None, Some(passwordHash), Some("email"), None), now);
    InsertUserValid(db.users, row);
    db.users := db.users[newId := row];
    r := Ok(UserEnvelope(ToAuthUser(row)));
  }
}
