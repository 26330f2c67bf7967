/**
 * The request and response shapes of the server (server/src/schema.ts):
 * the task enums, the `AuthUser` view of a user, and the zod parsers that
 * turn a request body into a handler input or reject it.
 */
module Schema {
  import opened Wrappers
  import opened Errors

  /** A point in time (`Date`), as milliseconds since the epoch. */
  type Time = int

  datatype Priority = Low | Medium | High

  datatype Status = ToDo | InProgress | Done

  datatype OAuthProvider = Google | GitHub

  function PriorityName(p: Priority): string
  {
    match p
    case Low => "low"
    case Medium => "medium"
    case High => "high"
  }

  function StatusName(s: Status): string
  {
    match s
    case ToDo => "to do"
    case InProgress => "in progress"
    case Done => "done"
  }

  function ProviderName(p: OAuthProvider): string
  {
    match p
    case Google => "google"
    case GitHub => "github"
  }

  /** `taskPriorityEnum`: accepts exactly the three priority names. */
  function ParsePriority(s: string): (r: Option<Priority>)
    ensures r.Some? <==> s == "low" || s == "medium" || s == "high"
    ensures r.Some? ==> PriorityName(r.value) == s
  {
    if s == "low" then Some(Low)
    else if s == "medium" then Some(Medium)
    else if s == "high" then Some(High)
    else None
  }

  /** `taskStatusEnum`: accepts exactly the three status names. */
  function ParseStatus(s: string): (r: Option<Status>)
    ensures r.Some? <==> s == "to do" || s == "in progress" || s == "done"
    ensures r.Some? ==> StatusName(r.value) == s
  {
    if s == "to do" then Some(ToDo)
    else if s == "in progress" then Some(InProgress)
    else if s == "done" then Some(Done)
    else None
  }

  /** The provider enum of `oauthInputSchema`: exactly "google" or "github". */
  function ParseProvider(s: string): (r: Option<OAuthProvider>)
    ensures r.Some? <==> s == "google" || s == "github"
    ensures r.Some? ==> ProviderName(r.value) == s
  {
    if s == "google" then Some(Google)
    else if s == "github" then Some(GitHub)
    else None
  }

  /** Every priority is named by exactly one string, and parsing that string gives it back. */
  lemma PriorityNameRoundTrip(p: Priority)
    ensures ParsePriority(PriorityName(p)) == Some(p)
    ensures forall q :: PriorityName(q) == PriorityName(p) ==> q == p
  {
  }

  /** Every status is named by exactly one string, and parsing that string gives it back. */
  lemma StatusNameRoundTrip(s: Status)
    ensures ParseStatus(StatusName(s)) == Some(s)
    ensures forall t :: StatusName(t) == StatusName(s) ==> t == s
  {
  }

  /** The sanitized user view: exactly these four fields, never a password hash or provider data. */
  datatype AuthUser = AuthUser(id: string, email: string, name: Option<string>, avatar_url: Option<string>)

  /** The `{ user }` wrapper that `register` and `oauth` return. */
  datatype UserEnvelope = UserEnvelope(user: AuthUser)

  /** A create-task request body before parsing, with every required field present and of the right type. */
  datatype CreateTaskRequest = CreateTaskRequest(
    title: string, description: string, due_date: Time, priority: string, status: Option<string>)

  /** `CreateTaskInput`: the parsed body, the status filled in. */
  datatype CreateTaskInput = CreateTaskInput(
    title: string, description: string, due_date: Time, priority: Priority, status: Status)

  /** `createTaskInputSchema`: a non-empty title, any description, a known priority, and a known status defaulting to "to do". */
  function ParseCreateTaskInput(body: CreateTaskRequest): (r: Result<CreateTaskInput, Error>)
    ensures r.Ok? <==>
      && |body.title| >= 1
      && ParsePriority(body.priority).Some?
      && (body.status.Some? ==> ParseStatus(body.status.value).Some?)
    ensures r.Ok? ==>
      && r.value.title == body.title
      && r.value.description == body.description
      && r.value.due_date == body.due_date
      && PriorityName(r.value.priority) == body.priority
      && (body.status.None? ==> r.value.status == ToDo)
      && (body.status.Some? ==> StatusName(r.value.status) == body.status.value)
    ensures r.Err? ==>
      && r.error.InvalidInput?
      && ("title" in r.error.fields <==> |body.title| < 1)
      && ("priority" in r.error.fields <==> ParsePriority(body.priority).None?)
      && ("status" in r.error.fields <==> body.status.Some? && ParseStatus(body.status.value).None?)
  {
    var priority := ParsePriority(body.priority);
    var status := if body.status.None? then Some(ToDo) else ParseStatus(body.status.value);
    var issues :=
      (if |body.title| < 1 then {"title"} else {})
      + (if priority.None? then {"priority"} else {})
      + (if status.None? then {"status"} else {});
    if issues != {} then Err(InvalidInput(issues))
    else Ok(CreateTaskInput(body.title, body.description, body.due_date, priority.value, status.value))
  }

  /** An update-task request body before parsing, with `id` (the only mandatory field) present and every field of the right type. */
  datatype UpdateTaskRequest = UpdateTaskRequest(
    id: string, title: Option<string>, description: Option<string>, due_date: Option<Time>,
    priority: Option<string>, status: Option<string>)

  /** `UpdateTaskInput`: the parsed body; an absent field stays absent. */
  datatype UpdateTaskInput = UpdateTaskInput(
    id: string, title: Option<string>, description: Option<string>, due_date: Option<Time>,
    priority: Option<Priority>, status: Option<Status>)

  /** `updateTaskInputSchema`: every field but `id` optional; a title, when given, non-empty; enums, when given, known. */
  function ParseUpdateTaskInput(body: UpdateTaskRequest): (r: Result<UpdateTaskInput, Error>)
    ensures r.Ok? <==>
      && (body.title.Some? ==> |body.title.value| >= 1)
      && (body.priority.Some? ==> ParsePriority(body.priority.value).Some?)
      && (body.status.Some? ==> ParseStatus(body.status.value).Some?)
    ensures r.Ok? ==>
      && r.value.id == body.id
      && r.value.title == body.title
      && r.value.description == body.description
      && r.value.due_date == body.due_date
      && (r.value.priority.Some? <==> body.priority.Some?)
      && (r.value.priority.Some? ==> PriorityName(r.value.priority.value) == body.priority.value)
      && (r.value.status.Some? <==> body.status.Some?)
      && (r.value.status.Some? ==> StatusName(r.value.status.value) == body.status.value)
    ensures r.Err? ==>
      && r.error.InvalidInput?
      && ("title" in r.error.fields <==> body.title.Some? && |body.title.value| < 1)
      && ("priority" in r.error.fields <==> body.priority.Some? && ParsePriority(body.priority.value).None?)
      && ("status" in r.error.fields <==> body.status.Some? && ParseStatus(body.status.value).None?)
  {
    var badTitle := body.title.Some? && |body.title.value| < 1;
    var badPriority := body.priority.Some? && ParsePriority(body.priority.value).None?;
    var badStatus := body.status.Some? && ParseStatus(body.status.value).None?;
    var issues :=
      (if badTitle then {"title"} else {})
      + (if badPriority then {"priority"} else {})
      + (if badStatus then {"status"} else {});
    if issues != {} then Err(InvalidInput(issues))
    else
      var priority := if body.priority.None? then None else Some(ParsePriority(body.priority.value).value);
      var status := if body.status.None? then None else Some(ParseStatus(body.status.value).value);
      Ok(UpdateTaskInput(body.id, body.title, body.description, body.due_date, priority, status))
  }

  /** An update-status request body, with both fields present and strings. */
  datatype UpdateTaskStatusRequest = UpdateTaskStatusRequest(id: string, status: string)

  datatype UpdateTaskStatusInput = UpdateTaskStatusInput(id: string, status: Status)

  /** `updateTaskStatusInputSchema`: an id and a known status, which is mandatory. */
  function ParseUpdateTaskStatusInput(body: UpdateTaskStatusRequest): (r: Result<UpdateTaskStatusInput, Error>)
    ensures r.Ok? <==> ParseStatus(body.status).Some?
    ensures r.Ok? ==> r.value.id == body.id && StatusName(r.value.status) == body.status
    ensures r.Err? ==> r.error == InvalidInput({"status"})
  {
    match ParseStatus(body.status)
    case Some(s) => Ok(UpdateTaskStatusInput(body.id, s))
    case None => Err(InvalidInput({"status"}))
  }

  /**
   * JavaScript's `.length`: the number of UTF-16 code units, so a character
   * outside the Basic Multilingual Plane (a surrogate pair) counts twice.
   * zod's `.min(n)` on a string compares this length.
   */
  function Utf16Length(s: string): (n: nat)
    ensures |s| <= n <= 2 * |s|
    ensures n == |s| <==> forall i | 0 <= i < |s| :: s[i] as int <= 0xFFFF
  {
    if s == [] then 0
    else (if s[0] as int > 0xFFFF then 2 else 1) + Utf16Length(s[1..])
  }

  /** `LoginInput`: an email and a password, both present and strings (parsing leaves them unchanged). */
  datatype LoginInput = LoginInput(email: string, password: string)

  /**
   * `loginInputSchema`: a syntactically valid email and a password of at
   * least six UTF-16 code units. zod's email pattern is passed in as `isEmail`.
   */
  function ParseLoginInput(body: LoginInput, isEmail: string -> bool): (r: Result<LoginInput, Error>)
    ensures r.Ok? <==> isEmail(body.email) && Utf16Length(body.password) >= 6
    ensures r.Ok? ==> r.value == body
    ensures r.Err? ==>
      && r.error.InvalidInput?
      && ("email" in r.error.fields <==> !isEmail(body.email))
      && ("password" in r.error.fields <==> Utf16Length(body.password) < 6)
  {
    var issues :=
      (if !isEmail(body.email) then {"email"} else {})
      + (if Utf16Length(body.password) < 6 then {"password"} else {});
    if issues != {} then Err(InvalidInput(issues)) else Ok(body)
  }

  /** `RegisterInput`: as for login, plus an optional display name. */
  datatype RegisterInput = RegisterInput(email: string, password: string, name: Option<string>)

  /** `registerInputSchema`: a valid email, a password of at least six UTF-16 code units, any name or none. */
  function ParseRegisterInput(body: RegisterInput, isEmail: string -> bool): (r: Result<RegisterInput, Error>)
    ensures r.Ok? <==> isEmail(body.email) && Utf16Length(body.password) >= 6
    ensures r.Ok? ==> r.value == body
    ensures r.Err? ==>
      && r.error.InvalidInput?
      && ("email" in r.error.fields <==> !isEmail(body.email))
      && ("password" in r.error.fields <==> Utf16Length(body.password) < 6)
      && "name" !in r.error.fields
  {
    var issues :=
      (if !isEmail(body.email) then {"email"} else {})
      + (if Utf16Length(body.password) < 6 then {"password"} else {});
    if issues != {} then Err(InvalidInput(issues)) else Ok(body)
  }

  /** An OAuth request body, with both fields present and strings. */
  datatype OAuthRequest = OAuthRequest(provider: string, code: string)

  datatype OAuthInput = OAuthInput(provider: OAuthProvider, code: string)

  /** `oauthInputSchema`: the provider is "google" or "github"; the code is any string. */
  function ParseOAuthInput(body: OAuthRequest): (r: Result<OAuthInput, Error>)
    ensures r.Ok? <==> body.provider == "google" || body.provider == "github"
    ensures r.Ok? ==> ProviderName(r.value.provider) == body.provider && r.value.code == body.code
    ensures r.Err? ==> r.error == InvalidInput({"provider"})
  {
    match ParseProvider(body.provider)
    case Some(p) => Ok(OAuthInput(p, body.code))
    case None => Err(InvalidInput({"provider"}))
  }

  /** Three emoji are six UTF-16 code units, so they pass the six-character minimum. */
  lemma SurrogatePairsCountTwice(email: string, isEmail: string -> bool)
    requires isEmail(email)
    ensures ParseLoginInput(LoginInput(email, "\U{1F600}\U{1F600}\U{1F600}"), isEmail).Ok?
    ensures ParseRegisterInput(RegisterInput(email, "\U{1F600}\U{1F600}\U{1F600}", None), isEmail).Ok?
  {
    var p := "\U{1F600}\U{1F600}\U{1F600}";
    assert p[1..][1..][1..] == [];
    assert Utf16Length(p) == 6;
  }
}
