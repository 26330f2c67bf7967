/**
 * The authentication gate of server/src/index.ts: `createContext` turns the
 * Authorization header into the request's user id, and `protectedProcedure`
 * lets a request through only when there is one.
 */
module Gateway {
  import opened Wrappers
  import opened Errors

  const BearerPrefix: string := "Bearer "

  /** `createContext`: a header "Bearer <token>" with a non-empty token names user <token>. */
  function CreateContext(authorization: Option<string>): (userId: Option<string>)
    ensures userId.Some? <==>
      authorization.Some? && |authorization.value| > 7 && authorization.value[..7] == BearerPrefix
    ensures userId.Some? ==> authorization.value == BearerPrefix + userId.value && userId.value != ""
  {
    if authorization.Some? && authorization.value != "" && |authorization.value| >= 7 && authorization.value[..7] == BearerPrefix then
      var token := authorization.value[7..];
      assert authorization.value == authorization.value[..7] + token;
      if token != "" then Some(token) else None
    else
      None
  }

  /** Any non-empty token sent as "Bearer <token>" comes back as the user id. */
  lemma BearerTokenRoundTrip(token: string)
    requires token != ""
    ensures CreateContext(Some(BearerPrefix + token)) == Some(token)
  {
  }

  /** `protectedProcedure`: UNAUTHORIZED without a (truthy) user id, else that same id passed on. */
  function ProtectedProcedure(userId: Option<string>): (r: Result<string, Error>)
    ensures r.Err? <==> userId.None? || userId.value == ""
    ensures r.Err? ==> r.error == Unauthorized
    ensures r.Ok? ==> userId == Some(r.value)
  {
    if userId.None? || userId.value == "" then Err(Unauthorized) else Ok(userId.value)
  }

  /** The procedures of `appRouter`. */
  datatype Route =
    | Healthcheck
    | AuthRegister | AuthLogin | AuthOAuth | AuthGetCurrentUser
    | TasksCreate | TasksGetAll | TasksUpdate | TasksUpdateStatus | TasksDelete

  /** Which procedures are built on `protectedProcedure`: every task route, and getCurrentUser. */
  predicate IsProtected(route: Route)
  {
    match route
    case Healthcheck | AuthRegister | AuthLogin | AuthOAuth => false
    case AuthGetCurrentUser | TasksCreate | TasksGetAll | TasksUpdate | TasksUpdateStatus | TasksDelete => true
  }

  /**
   * The context a procedure's handler runs with: a public procedure always
   * runs, with whatever user id the header gave; a protected one runs only
   * with a user id, and otherwise is refused with UNAUTHORIZED.
   */
  function Authorize(route: Route, authorization: Option<string>): (r: Result<Option<string>, Error>)
    ensures !IsProtected(route) ==> r == Ok(CreateContext(authorization))
    ensures IsProtected(route) ==>
      (r.Ok? <==> authorization.Some? && |authorization.value| > 7 && authorization.value[..7] == BearerPrefix)
    ensures IsProtected(route) && r.Ok? ==>
      r.value.Some? && authorization == Some(BearerPrefix + r.value.value)
    ensures r.Err? ==> r.error == Unauthorized
  {
    var userId := CreateContext(authorization);
    if !IsProtected(route) then Ok(userId)
    else
      match ProtectedProcedure(userId)
      case Ok(id) => Ok(Some(id))
      case Err(e) => Err(e)
  }
}
