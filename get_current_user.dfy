/** `getCurrentUser` (server/src/handlers/auth/get_current_user.ts): a read-only lookup by id. */
module CurrentUserHandler {
  import opened Wrappers
  import opened Schema
  import opened Tables

  /** null for an empty id or an unknown one; otherwise the user's four public fields. */
  function GetCurrentUser(users: map<UserId, User>, userId: string): (r: Option<AuthUser>)
    requires UsersValid(users)
    ensures r.Some? <==> userId != "" && userId in users
    ensures r.Some? ==>
      && r.value.id == userId
      && r.value.email == users[userId].email
      && r.value.name == users[userId].name
      && r.value.avatar_url == users[userId].avatar_url
  {
    if userId == "" then None
    else if userId !in users then None
    else Some(ToAuthUser(users[userId]))
  }
}
