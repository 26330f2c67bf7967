/** The errors the server's procedures reject a request with. */
module Errors {

  datatype Error =
    /** The zod input parser rejected the listed fields. */
    | InvalidInput(fields: set<string>)
    /** `protectedProcedure` found no user id in the request context. */
    | Unauthorized
    /** `register`: "User with this email already exists". */
    | EmailAlreadyExists
    /** `login`: "Invalid email or password" (unknown email or wrong password alike). */
    | InvalidEmailOrPassword
    /** `login`: "User registered with OAuth, please use social login". */
    | RegisteredWithOAuth
    /** `fetchOAuthUserData`: "Invalid authorization code". */
    | InvalidAuthorizationCode
    /** `fetchOAuthUserData`: "Unsupported OAuth provider: <provider>". */
    | UnsupportedProvider(provider: string)
    /** The database refused an insert that breaks the unique constraint on users.email. */
    | UniqueViolation
    /** The database refused an insert whose tasks.user_id names no user. */
    | ForeignKeyViolation
    /** `updateTask`, `updateTaskStatus`: "Task not found or access denied". */
    | TaskNotFoundOrAccessDenied
    /** `deleteTask`: "Task not found or unauthorized". */
    | TaskNotFoundOrUnauthorized

  const ProviderPrefix := "Unsupported OAuth provider: "

  /**
   * The message text the handlers throw. Three long texts are written as two
   * joined literals: the solver cannot index into one literal that long.
   */
  function Message(e: Error): string
  {
    match e
    case InvalidInput(_) => "Invalid input"
    case Unauthorized => "You must be logged in " + "to access this resource"
    case EmailAlreadyExists => "User with this email already exists"
    case InvalidEmailOrPassword => "Invalid email or password"
    case RegisteredWithOAuth => "User registered with OAuth, " + "please use social login"
    case InvalidAuthorizationCode => "Invalid authorization code"
    case UnsupportedProvider(p) => ProviderPrefix + p
    case UniqueViolation => "duplicate key value " + "violates unique constraint"
    case ForeignKeyViolation => "violates foreign key constraint"
    case TaskNotFoundOrAccessDenied => "Task not found or access denied"
    case TaskNotFoundOrUnauthorized => "Task not found or unauthorized"
  }

  /** A text that differs from the provider prefix at position `k` is not an unsupported-provider message. */
  lemma NotProviderMessage(m: string, k: nat)
    requires k < |ProviderPrefix| && k < |m| && m[k] != ProviderPrefix[k]
    ensures !(|m| >= |ProviderPrefix| && m[..|ProviderPrefix|] == ProviderPrefix)
  {
    if |m| >= |ProviderPrefix| {
      assert m[..|ProviderPrefix|][k] == m[k];
    }
  }

  /** No fixed text starts with the provider prefix. */
  lemma FixedTextNotProvider(e: Error)
    requires !e.InvalidInput? && !e.UnsupportedProvider?
    ensures var m := Message(e);
      !(|m| >= |ProviderPrefix| && m[..|ProviderPrefix|] == ProviderPrefix)
  {
    match e
    case Unauthorized => NotProviderMessage(Message(e), 0);
    case EmailAlreadyExists => NotProviderMessage(Message(e), 1);
    case InvalidEmailOrPassword => NotProviderMessage(Message(e), 0);
    case RegisteredWithOAuth => NotProviderMessage(Message(e), 1);
    case InvalidAuthorizationCode => NotProviderMessage(Message(e), 0);
    case UniqueViolation => NotProviderMessage(Message(e), 0);
    case ForeignKeyViolation => NotProviderMessage(Message(e), 0);
    case TaskNotFoundOrAccessDenied => NotProviderMessage(Message(e), 0);
    case TaskNotFoundOrUnauthorized => NotProviderMessage(Message(e), 0);
  }

  /** The length of each fixed text; only two of them share one. */
  lemma FixedTextLength(e: Error)
    requires !e.InvalidInput? && !e.UnsupportedProvider?
    ensures |Message(e)| == match e
      case Unauthorized => 45
      case EmailAlreadyExists => 35
      case InvalidEmailOrPassword => 25
      case RegisteredWithOAuth => 51
      case InvalidAuthorizationCode => 26
      case UniqueViolation => 46
      case ForeignKeyViolation => 31
      case TaskNotFoundOrAccessDenied => 31
      case _ => 30
  {
  }

  /**
   * The message text is all a client sees, and it tells the errors apart
   * (zod's field list aside): equal texts come from the same error.
   */
  lemma MessageDeterminesError(e1: Error, e2: Error)
    requires !e1.InvalidInput? && !e2.InvalidInput?
    requires Message(e1) == Message(e2)
    ensures e1 == e2
  {
    var m := Message(e1);
    if e1.UnsupportedProvider? && e2.UnsupportedProvider? {
      assert m[|ProviderPrefix|..] == e1.provider;
      assert m[|ProviderPrefix|..] == e2.provider;
    } else if e1.UnsupportedProvider? {
      assert m[..|ProviderPrefix|] == ProviderPrefix;
      FixedTextNotProvider(e2);
    } else if e2.UnsupportedProvider? {
      assert m[..|ProviderPrefix|] == ProviderPrefix;
      FixedTextNotProvider(e1);
    } else {
      FixedTextLength(e1);
      FixedTextLength(e2);
      if e1.ForeignKeyViolation? || e1.TaskNotFoundOrAccessDenied? {
        assert Message(ForeignKeyViolation)[0] != Message(TaskNotFoundOrAccessDenied)[0];
      }
    }
  }
}
