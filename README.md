# Task manager server and Fraction class, modelled in Dafny

This project models two independent pieces of code.

**The task-manager server** (`server/src`): a tRPC API over two PostgreSQL
tables, `users` and `tasks`.
- `Tables` models the tables. `Tables.Store` is a class holding both tables
  as maps from primary key to row.
- `Store.Valid()` collects the table constraints: each row is stored under
  its own id, e-mails are unique, and every task's `user_id` names an
  existing user.
- Deleting a user cascades to that user's tasks.
- `Schema` models the zod validators. Each one is a parser from a request body
  to a typed input or an `InvalidInput` error that names the failing fields.
- Each handler is modelled in its own module:
  - `register`, `oauth`, `createTask`, `updateTask`, `updateTaskStatus` and
    `deleteTask` change the database. They are methods that modify the
    `Store`.
  - `login`, `getCurrentUser` and `getTasks` only read. They are functions over
    the tables.
- `Gateway` models `createContext`, which turns an `Authorization: Bearer …`
  header into a user id. It also models `protectedProcedure`, which rejects
  calls without one.
- `Properties` relates the handlers to one another. It covers registering and
  then logging in, listing a task that was just created, and repeating calls.

Things the server gets from outside are parameters:
- the clock (`now`);
- the fresh UUIDs a row receives (`newId`);
- Bun's password hash (`hash`);
- zod's e-mail check (`isEmail`).

The comment at login.ts:26-27 says that production code should use
`bcrypt.compare`. As written, the check is plain string equality between the
password and the stored `password_hash`, while `register` stores
`Bun.password.hash(password)`. The model follows the code.
`Properties.RegisterThenLogin` gives the exact outcome of a login right after
registering. `Properties.RegisteredUserCannotLogIn` states the consequence for
any hash that does not return its input unchanged.

**The Fraction class** (`Fraction.cs`): a mutable rational number kept in
lowest terms with a positive denominator.
- `Fractions.Fraction` is a class with the two fields.
- Its constructor and setters call `Simplify` in place. `Simplify` is proved
  equal to the function `Normalize`, and `NormalizeSpec` proves that
  `Normalize` gives lowest terms with the same value.
- `GCD` is Euclid's loop, proved equal to the recursive `Gcd`. That function
  is proved to be a common divisor that every common divisor divides.
- Each arithmetic operator returns a fresh fraction. Its value is proved to
  be the exact rational sum, difference, product or quotient.
- `ToString` is proved to lose nothing: `ParseFraction` reads the numerator
  and denominator back.
- C#'s truncating integer `/` is written out as `TruncDiv`.

## Model

| member | source | states |
|---|---|---|
| Schema.ParsePriority | server/src/schema.ts:5 | accepts exactly "low", "medium" and "high"; an accepted value's name is the input text |
| Schema.ParseStatus | server/src/schema.ts:6 | accepts exactly "to do", "in progress" and "done"; an accepted value's name is the input text |
| Schema.ParseProvider | server/src/schema.ts:98 | accepts exactly "google" and "github"; an accepted value's name is the input text |
| Schema.ParseCreateTaskInput | server/src/schema.ts:39-45 | Ok iff the title is non-empty and priority and status (if given) are enum members; a missing status defaults to "to do"; on error, exactly the failing fields are named |
| Schema.ParseUpdateTaskInput | server/src/schema.ts:50-57 | Ok iff a given title is non-empty and a given priority or status is an enum member; absent fields stay absent; on error, exactly the failing fields are named |
| Schema.ParseUpdateTaskStatusInput | server/src/schema.ts:62-65 | Ok iff the status is an enum member; the id and status are passed through |
| Schema.Utf16Length | server/src/schema.ts:82 | the length zod's `.min` compares: UTF-16 code units, between the number of characters and twice it, equal to it iff no character lies outside the Basic Multilingual Plane |
| Schema.ParseLoginInput | server/src/schema.ts:80-83 | Ok iff the e-mail is well formed and the password is at least 6 UTF-16 code units long; on error, exactly the failing fields are named |
| Schema.ParseRegisterInput | server/src/schema.ts:88-92 | the same rules as login (password length in UTF-16 code units), with an optional name passed through |
| Schema.SurrogatePairsCountTwice | server/src/schema.ts:90 | a password of three emoji (six code units) passes the minimum of six in both login and register |
| Schema.ParseOAuthInput | server/src/schema.ts:97-100 | Ok iff the provider is google or github; any code is accepted |
| Tables.Store.Valid | server/src/db/schema.ts:10-33 | the invariant every handler keeps: each row under its own primary key, unique e-mails, and every task's user_id naming an existing user |
| Tables.InsertedUser | server/src/db/schema.ts:11-19 | an inserted user gets the generated id and created_at = updated_at = now, and keeps every given column |
| Tables.InsertedTask | server/src/db/schema.ts:24-32 | an inserted task gets status "to do" unless one is given, and created_at = updated_at = now |
| Tables.InsertUserValid | server/src/db/schema.ts:11-12 | inserting a user under a fresh id keeps the users table valid iff its e-mail is not yet taken (the unique constraint) |
| Tables.UpdateUserValid | server/src/db/schema.ts:12 | rewriting a user row without changing its id or e-mail keeps the table valid |
| Tables.Store.DeleteUser | server/src/db/schema.ts:30 | deleting a user removes exactly that row and cascades to exactly the tasks it owned; the store stays valid |
| Errors.Message | server/src/handlers/auth/register.ts:16 | the text each error is thrown with, as in the handlers and protectedProcedure |
| Errors.MessageDeterminesError | server/src/handlers/auth/oauth.ts:29-36 | apart from zod's, two errors with the same message text are the same error, unsupported provider names included |
| RegisterHandler.NameOrNull | server/src/handlers/auth/register.ts:26 | the stored name is null iff the name is absent or empty, otherwise the given name |
| RegisterHandler.RegisteredUser | server/src/handlers/auth/register.ts:23-31 | the inserted row has the hashed password, provider "email", no provider id, no avatar and both timestamps set to now |
| RegisterHandler.Register | server/src/handlers/auth/register.ts:10-45 | a taken e-mail fails with "User with this email already exists" and changes nothing; otherwise exactly one row is added and its public fields are returned; validity and provider-id uniqueness are kept |
| LoginHandler.FindUserByEmail | server/src/handlers/auth/login.ts:10-19 | finds a row iff the e-mail is taken, and that row has the e-mail |
| LoginHandler.Login | server/src/handlers/auth/login.ts:10-38 | an unknown e-mail gives "Invalid email or password"; an OAuth error iff the row has no (or an empty) password hash; success iff the hash equals the given password; success returns that row's public fields |
| CurrentUserHandler.GetCurrentUser | server/src/handlers/auth/get_current_user.ts:9-36 | a user is returned iff the id is non-empty and present; its id, email, name and avatar are the row's |
| OAuthHandler.FetchOAuthUserData | server/src/handlers/auth/oauth.ts:8-38 | "invalid_code" fails first; an unsupported provider fails with its name; otherwise each provider yields its own mock profile |
| OAuthHandler.Refreshed | server/src/handlers/auth/oauth.ts:58-66 | an existing user keeps id, e-mail, password and provider, and gets the profile's name and avatar with updated_at = now |
| OAuthHandler.LinkedUser | server/src/handlers/auth/oauth.ts:71-80 | a new OAuth user carries the profile's e-mail, name, avatar and id as provider id, the provider's name, no password hash and timestamps now |
| OAuthHandler.OAuth | server/src/handlers/auth/oauth.ts:44-93 | a fetch error is passed on with nothing changed; a user linked to the profile id is refreshed in place; otherwise a new user is inserted, or, if its e-mail is taken, the unique violation is raised with nothing changed; validity and provider-id uniqueness are kept |
| CreateTaskHandler.CreateTask | server/src/handlers/tasks/create_task.ts:9-21 | an unknown user id violates the foreign key and changes nothing; otherwise exactly one task row with every field from the input is added and returned |
| GetTasksHandler.OwnedIds | server/src/handlers/tasks/get_tasks.ts:12 | the ids selected are exactly those of the user's tasks |
| GetTasksHandler.NewestExists | server/src/handlers/tasks/get_tasks.ts:13 | every non-empty set of tasks has a newest one by created_at |
| GetTasksHandler.NewestFirstOf | server/src/handlers/tasks/get_tasks.ts:13 | orders the chosen tasks by created_at, newest first, without repeats or losses |
| GetTasksHandler.GetTasks | server/src/handlers/tasks/get_tasks.ts:10-14 | lists exactly the user's tasks, each once, newest first; empty iff the user owns none |
| UpdateTaskHandler.UpdateTask | server/src/handlers/tasks/update_task.ts:10-54 | a task not owned by the caller gives "Task not found or access denied" with nothing changed; otherwise only the given fields and updated_at change, and the new row is returned |
| UpdateTaskHandler.EmptyPatchOnlyTouchesTimestamp | server/src/handlers/tasks/update_task.ts:24-26 | a patch with no fields changes only updated_at |
| UpdateTaskHandler.PatchDeterminedAndIdempotent | server/src/handlers/tasks/update_task.ts:28-42 | a patch has exactly one result, and applying it again gives the same row |
| UpdateTaskStatusHandler.UpdateTaskStatus | server/src/handlers/tasks/update_task_status.ts:10-28 | an owned task gets the new status and updated_at = now and is returned; otherwise "Task not found or access denied" with nothing changed |
| DeleteTaskHandler.DeleteTask | server/src/handlers/tasks/delete_task.ts:10-22 | an owned task is removed and returned; otherwise "Task not found or unauthorized" with nothing changed |
| Gateway.CreateContext | server/src/index.ts:119-130 | a user id is set iff the header starts with "Bearer " and has more after it; the header is then the prefix followed by the id |
| Gateway.BearerTokenRoundTrip | server/src/index.ts:122-129 | any non-empty token sent as "Bearer token" comes back as the user id |
| Gateway.ProtectedProcedure | server/src/index.ts:40-53 | UNAUTHORIZED iff there is no user id or it is empty; otherwise the same id is passed on |
| Gateway.Authorize | server/src/index.ts:57-101 | public routes pass the context through; the task routes and getCurrentUser need a user id and fail with UNAUTHORIZED without one |
| Properties.RegisterThenLogin | server/src/handlers/auth/login.ts:22-30 | logging in right after registering: an OAuth error if the hash is empty, success only if the hash equals the password, otherwise "Invalid email or password" |
| Properties.LoginFailureMessage | server/src/handlers/auth/login.ts:15-30 | a failed login shows the OAuth hint iff the e-mail belongs to an account without a password; otherwise the text is "Invalid email or password", whether the e-mail is unknown or the password wrong |
| Properties.RegisteredUserCannotLogIn | server/src/handlers/auth/login.ts:28 | with a hash that never returns its input, a freshly registered user is refused with "Invalid email or password" |
| Properties.LoginAgreesWithCurrentUser | server/src/handlers/auth/get_current_user.ts:14-36 | the user a login returns is the one getCurrentUser returns for its id |
| Properties.CreatedTaskIsListed | server/src/handlers/tasks/get_tasks.ts:10-14 | after a task is created, its owner's list contains it and has exactly one more entry |
| Properties.OtherListingsUnchanged | server/src/handlers/tasks/get_tasks.ts:12 | creating a task leaves every other user's list with the same tasks |
| Properties.RegisterTwice | server/src/handlers/auth/register.ts:15-17 | registering an e-mail twice: the first call succeeds, the second fails, and one row has that e-mail |
| Properties.OAuthTwice | server/src/handlers/auth/oauth.ts:54-68 | a second OAuth sign-in with the same provider returns the same user, refreshed at the second time, and adds no second row |
| Properties.DeleteTwice | server/src/handlers/tasks/delete_task.ts:18-20 | deleting a task twice: the first call returns it, the second fails |
| Properties.ForeignTaskUntouched | server/src/handlers/tasks/update_task.ts:10-21 | another user's update, status change or delete of a task all fail and change nothing |
| Decimal.IntToString | Fraction.cs:94 | an integer's text is non-empty, has no '/', and starts with '-' iff the integer is negative; the digits after any sign are non-empty, with no leading zero unless the integer is 0 |
| Decimal.IntToStringRoundTrip | Fraction.cs:94 | reading an integer's text back gives that integer |
| Fractions.GcdPositive | Fraction.cs:70 | the gcd of two numbers that are not both zero is positive, so Simplify never divides by zero |
| Fractions.GcdDivides | Fraction.cs:81-90 | the gcd divides both operands |
| Fractions.GcdGreatest | Fraction.cs:81-90 | every common divisor divides the gcd |
| Fractions.GcdScale | Fraction.cs:81-90 | gcd(k*a, k*b) = k*gcd(a, b) |
| Fractions.TruncDivExact | Fraction.cs:71-72 | truncating division by a divisor is exact and keeps the sign |
| Fractions.NormalizeReduces | Fraction.cs:68-78 | the simplified pair is coprime, has a positive denominator and equal cross products |
| Fractions.NormalizeSpec | Fraction.cs:68-78 | simplifying keeps the value, gives lowest terms and a positive denominator, and turns zero into 0/1 |
| Fractions.NormalizeIdempotent | Fraction.cs:68-78 | simplifying a fraction already in lowest terms with a positive denominator leaves it unchanged |
| Fractions.FormatRoundTrip | Fraction.cs:92-95 | the text of any numerator and denominator parses back to them |
| Fractions.SumValue | Fraction.cs:48 | the cross-multiplied numerator over the product of denominators is the sum |
| Fractions.DifferenceValue | Fraction.cs:53 | the cross-multiplied numerator over the product of denominators is the difference |
| Fractions.ProductValue | Fraction.cs:58 | the product of numerators over the product of denominators is the product |
| Fractions.QuotientValue | Fraction.cs:64 | multiplying by the flipped divisor gives the quotient |
| Fractions.Fraction.constructor | Fraction.cs:31-37 | a non-zero denominator gives a fraction in lowest terms with the same value |
| Fractions.Fraction.FromWhole | Fraction.cs:39-43 | a whole number w becomes w/1, already in lowest terms |
| Fractions.Fraction.Create | Fraction.cs:31-37 | a zero denominator throws ArgumentException; otherwise a fresh simplified fraction |
| Fractions.Fraction.GCD | Fraction.cs:81-90 | the loop returns Gcd(a, b): a common divisor that every common divisor divides |
| Fractions.Fraction.Simplify | Fraction.cs:68-78 | the fields become the normalised pair, which is in lowest terms with a positive denominator |
| Fractions.Fraction.SetNumerator | Fraction.cs:11-18 | the new numerator is stored and the pair re-simplified against the current denominator |
| Fractions.Fraction.SetDenominator | Fraction.cs:20-28 | zero throws ArgumentException and changes nothing; otherwise the value is stored and the pair re-simplified |
| Fractions.Fraction.Add | Fraction.cs:46-49 | returns a fresh simplified fraction whose value is the exact sum |
| Fractions.Fraction.Subtract | Fraction.cs:51-54 | returns a fresh simplified fraction whose value is the exact difference |
| Fractions.Fraction.Multiply | Fraction.cs:56-59 | returns a fresh simplified fraction whose value is the exact product |
| Fractions.Fraction.Divide | Fraction.cs:61-65 | a divisor with numerator zero throws DivideByZeroException; otherwise a fresh simplified fraction whose value is the exact quotient |
| Fractions.Fraction.ToString | Fraction.cs:92-95 | the text contains '/' iff the denominator is not 1, and it parses back to the numerator and denominator |

## Left out

- The HTTP transport, CORS, superjson, the server start-up and the healthcheck's clock. The healthcheck appears only as a public route in `Gateway.Authorize`.
- The database driver and concurrency. Each handler runs atomically on the `Store`, so the race between register's e-mail check and its insert is not modelled (the unique constraint would reject the second insert).
- Bun's salted password hash (`Bun.password.hash`, argon2id by default): it is the `hash` parameter. Login's plaintext comparison is modelled as written.
- The database's own error texts for a unique or foreign-key violation are approximated by `Errors.Message`; zod's error text is reduced to "Invalid input" and the set of failing fields.
- zod's e-mail regular expression: it is the `isEmail` parameter of the login and register parsers.
- zod's "Required" and wrong-type errors: the request datatypes hold every required field with the right type, so a body that lacks one or has the wrong JSON type is not modelled.
- `z.coerce.date()`: dates are integers (`Schema.Time`) that are already coerced. A date that cannot be coerced is not modelled.
- PostgreSQL's uuid syntax check: ids are plain strings. A malformed id that makes the database throw is modelled as a missing row.
- `OAuthHandler.FetchOAuthUserData`: an inherited object key used as a provider name (such as "toString") is treated as unsupported. In JavaScript it is truthy and slips past the check, though the zod enum in front of the handler never lets one through.
- `OAuthHandler.OAuth`: several users may share a provider id, because the table does not make it unique. The model picks any one of them, since the row order of `existingUsers[0]` is unspecified.
- `GetTasksHandler.GetTasks`: tasks with equal created_at may come in any order. The order among them is left unspecified, which is why the listing is a ghost function.
- The uniformly random UUIDs and `defaultNow()`: they are the `newId` and `now` parameters.
- Fractions.Fraction.Add: does not model 32-bit `int` overflow of the cross products, because integers are unbounded here.
- Fractions.Fraction.Subtract: does not model 32-bit `int` overflow, for the same reason.
- Fractions.Fraction.Multiply: does not model 32-bit `int` overflow, for the same reason.
- Fractions.Fraction.Divide: does not model 32-bit `int` overflow, for the same reason.
- Fractions.Fraction.Simplify: does not model the OverflowException that `Math.Abs(int.MinValue)` throws, for the same reason.
- The `Numerator` and `Denominator` getters only read the fields, so they are the fields themselves.
- `GCD` is a static method here, because it reads no instance state.
- C#'s culture-specific number formatting: `ToString` uses the invariant "-" and decimal digits.
