# User management service: a Dafny model

This project models the user-management core of a hospital-management web
application. It covers three things:

- the user service: list, get, create, update and delete over the `users` table;
- the table's own constraints;
- the status-code logic of the `/api/users` HTTP route.

The model is functional. The table is a `map<Id, User>`, and every service call
is a pure function of it. The writes (`deleteUser`, `updateUser`, `createUser`)
return a `Step`: what the call returned or threw (`Outcome`), and the table
afterwards. The reads (`getUsers`, `getUser`) return their value directly; they
change nothing, and the model has no way for them to throw. The route is a set
of pure functions from the `id` query parameter and the service outcome to a
`Response`.

Modules, one per source file, plus `UserServiceProperties`:

- `UserTypes` (`user_types.dfy`): `src/lib/types/user.ts`. The four-valued role,
  the create and update requests, and the public `UserResponse`, which has no
  password field. The thrown errors are `ValidationError`, `ConflictError` and
  `OtherError`, the last standing for every other `Error`.
- `UsersSchema` (`users_schema.dfy`): `src/drizzle/schema/users.ts`. The stored
  row, the unique email, the primary key and the role enum, and the
  `varchar(255)` columns as PostgreSQL treats them: a value with a NUL
  character is refused, a value over 255 characters is refused unless all of
  the excess is spaces, in which case it is cut to 255 characters and stored.
  The insert, update and delete statements refuse a write that breaks a
  constraint, and return the row as stored. `Valid` is the set of states the
  table can be in.
- `Validators` (`validators.dfy`): `validateEmail` and `validatePassword`. The
  email check is the regular expression `^[^\s@]+@[^\s@]+\.[^\s@]+$` read
  literally: some split `local @ left . right` of the string into runs of
  non-whitespace, non-`@` characters. A lemma proves this equals a structural
  description: no whitespace, one `@`, a non-empty local part, and a dot inside
  the domain. `\s` is the exact list of code points that JavaScript's `\s`
  matches.
- `UserService` (`user_service.dfy`): `getUsers`, `getUser`, `deleteUser`,
  `updateUser` and `createUser`.
- `UserServiceProperties` (`user_service_properties.dfy`): properties that
  relate several calls.
- `UsersRoute` (`users_route.dfy`): `GET`, `PATCH`, `DELETE` and `POST` of
  `src/app/api/users/route.ts`. The status codes are those of sections 15.3.1,
  15.3.2, 15.5.1, 15.5.5, 15.5.10 and 15.6.1 of RFC 9110.

Parameters stand in for what the service gets from outside:

- The bcrypt hash is a parameter `hash: (string, nat) -> string`, applied with
  cost 10.
- The id and the timestamps that the database generates are parameters
  (`id`, `now`).
- A request body that is not JSON is `None`.

Behaviour kept as the code has it:

- `updateUser` tests its fields for JavaScript truthiness. An empty string skips
  validation, the conflict check and hashing, but it is still written to the
  row. An empty password is therefore stored as the empty string.
- `updateUser` validates and checks for conflicts before it learns whether the
  id exists. An invalid request for an unknown id is a `ValidationError`, not
  "not found".
- `createUser` accepts every role. One unit test
  (`src/lib/services/__tests__/userService.test.ts:210-230`) expects a
  `MethodNotAllowedError` for any role but PATIENT, but `userService.ts` neither
  defines nor throws that error. The model follows the code
  (`CreateAcceptsAnyRole`).
- `updateUser` treats a new email as a conflict only when a row with a
  different id holds it (`src/lib/services/userService.ts:85`). A user sending
  back its own email is therefore not in conflict
  (`KeepingOwnEmailIsNoConflict`).
- The service looks an email up before it writes. A NUL in the email makes
  that lookup fail, so such a request ends in a database error and not in a
  conflict or a write.

## Model

| member | source | states |
|---|---|---|
| UserTypes.RoleLabelsRoundTrip | src/lib/types/user.ts:1 | a role is one of ADMIN, DOCTOR, PATIENT, RECEPTIONIST; label and role determine each other |
| UsersSchema.RoleEnumMatchesRole | src/drizzle/schema/users.ts:4-9 | the database enum has exactly the four labels of the role type, and accepts a label iff it names a role |
| UsersSchema.Cut | src/drizzle/schema/users.ts:13-15 | a varchar(255) column keeps at most the first 255 characters of a value; what it keeps is the whole value, or the first 255 characters when only spaces follow them, exactly when the value is accepted |
| UsersSchema.FindByEmail | src/lib/services/userService.ts:133-136 | the email lookup finds exactly the rows holding that email, and fails exactly when the email holds a NUL |
| UsersSchema.InsertRow | src/drizzle/schema/users.ts:11-19 | an insert succeeds iff no value holds a NUL or runs past 255 characters other than in spaces, the id is new and the stored email is unused; it then adds exactly the row as the columns keep it and returns that row; a NUL is reported before any other refusal; a valid table stays valid |
| UsersSchema.UpdateRow | src/drizzle/schema/users.ts:13-15 | an update succeeds iff every assigned value is accepted by its column, even when no row has the id, and the new email is held by no other row; a missing id then changes nothing, a present one is replaced by the patched row with each value as its column keeps it; a valid table stays valid |
| UsersSchema.DeleteRow | src/lib/services/userService.ts:53-57 | a delete removes exactly the row with that id, keeps every other row, and keeps the table valid |
| Validators.ValidatePassword | src/lib/services/userService.ts:18-20 | a password passes iff it has at least 8 characters, whatever they are |
| Validators.ValidateEmail | src/lib/services/userService.ts:13-16 | the email test accepts exactly the well-formed emails: no whitespace, one `@` with something before it, and a dot strictly inside the domain |
| Validators.MatchIsWellFormed | src/lib/services/userService.ts:13-16 | a string the email expression accepts has no whitespace, exactly one `@`, a non-empty local part and a dot strictly inside the domain |
| Validators.WellFormedMatches | src/lib/services/userService.ts:13-16 | every string of that shape is accepted by the email expression |
| Validators.EmailPatternIsWellFormed | src/lib/services/userService.ts:13-16 | the email expression accepts a string iff it has that shape |
| UserService.Project | src/lib/services/userService.ts:24-31 | a read returns the id, name, email, role and both timestamps of a row, and not its password |
| UserService.ValidEmailIsNeverCut | src/lib/services/userService.ts:124-126 | an email that passes the email test has no spaces, so the email column takes it whole or refuses it, and never cuts it |
| UserService.GetUsers | src/lib/services/userService.ts:22-35 | the list holds the password-free projection of every row and nothing else |
| UserService.GetUser | src/lib/services/userService.ts:37-51 | the projection of the row with that id, or null exactly when, in a valid table, no row has that id |
| UserService.DeleteUser | src/lib/services/userService.ts:53-60 | returns true iff the id existed; afterwards no row has it, no row is added, every other row is unchanged, and the table stays valid |
| UserService.UpdateUser | src/lib/services/userService.ts:62-114 | a non-empty field is validated: email, then password, then name. A non-empty email with a NUL fails the lookup. A conflict is a non-empty email held by another id, always with the message "Email already exists"; any other refusal is an unclassified error (500). Unknown id: null with nothing changed, once every value is one its column accepts. A failure changes nothing. Success replaces exactly the supplied fields, a non-empty password by its hash, name and password as their columns keep them, and sets updatedAt. The table stays valid |
| UserService.WriteUpdate | src/lib/services/userService.ts:97-113 | once the checks pass, the update returns null iff every value is accepted and the id is missing, and the changed user iff the id is present and its new email is held by no other row; otherwise a database error with nothing changed |
| UserService.CreateUser | src/lib/services/userService.ts:116-163 | name, then email, then password failures are ValidationErrors; an email with a NUL fails the lookup; a used email is a ConflictError with the message "Email already exists", and any other refusal is an unclassified error (500); a failure changes nothing; success adds exactly one row with the given email and role, the name and the password hashed at cost 10 as their columns keep them, and returns that row's projection |
| UserServiceProperties.ProjectionForgetsOnlyPassword | src/lib/types/user.ts:17-24 | two rows have the same public projection iff they differ at most in the password |
| UserServiceProperties.ReadsIgnorePasswords | src/lib/services/userService.ts:22-51 | tables that differ only in stored passwords give identical getUser and getUsers results |
| UserServiceProperties.GetUserAgreesWithGetUsers | src/lib/services/__tests__/userService.test.ts:78-105 | what getUser returns is listed by getUsers, and in a valid table every listed user is returned by getUser under its id |
| UserServiceProperties.CreateThenGetUser | src/lib/services/userService.ts:141-162 | a created user reads back as the response createUser returned |
| UserServiceProperties.CreateThenDeleteRestores | src/lib/services/userService.ts:53-60 | deleting a just-created user returns true and restores the table as it was before the create |
| UserServiceProperties.DeleteThenGetUser | src/lib/services/__tests__/userService.test.ts:144-160 | after deleteUser(id), getUser(id) is null |
| UserServiceProperties.DuplicateCreateConflicts | src/app/api/__tests__/users.test.ts:64-80 | repeating a successful create, with any new id and time, throws ConflictError and inserts nothing |
| UserServiceProperties.CreateAcceptsAnyRole | src/lib/services/userService.ts:116-163 | whether createUser succeeds does not depend on the role |
| UserServiceProperties.CreateRejectedByDatabase | src/lib/services/userService.ts:132-160 | a database refusal of a create that passed the service checks means a value its column cannot take (a NUL, or over 255 characters other than trailing spaces) or an id already in use |
| UserServiceProperties.PaddedNameIsCut | src/lib/services/userService.ts:145-160 | a name that runs past 255 characters only in spaces is stored and returned cut to 255 characters, and the create succeeds |
| UserServiceProperties.NulNameRefused | src/lib/services/userService.ts:145-152 | a name holding a NUL passes the service checks and is refused by the database, and nothing is written |
| UserServiceProperties.KeepingOwnEmailIsNoConflict | src/lib/services/userService.ts:80-88 | in a valid table, a user sending back its own email is not in conflict |
| UserServiceProperties.UpdateThenGetUser | src/lib/services/userService.ts:97-113 | an updated user reads back as the response updateUser returned |
| UserServiceProperties.UpdateRowRepeatable | src/lib/services/userService.ts:97-111 | re-running a successful `UPDATE` with the same values at the same instant returns the same row and changes nothing further |
| UserServiceProperties.UpdateRepeatable | src/lib/services/userService.ts:90-113 | an update that sets no new password, repeated at the same instant, returns the same result and changes nothing further |
| UserServiceProperties.UpdateRejectedByDatabase | src/lib/services/userService.ts:79-103 | in a valid table, a database refusal of an update that passed the service checks means a value its column cannot take, whether or not the id exists, or an empty email that another user already holds |
| UserServiceProperties.EmptyPasswordStoredVerbatim | src/lib/services/userService.ts:71-94 | an update with password "" succeeds and stores "" unhashed |
| UserServiceProperties.EmptyEmailStoredVerbatim | src/lib/services/userService.ts:67-91 | an update with email "" skips the format and conflict checks and stores "" when no other user holds it |
| UserServiceProperties.WritesKeepTableValid | src/drizzle/schema/users.ts:13-15 | any sequence of creates, updates and deletes, succeeding or failing, keeps emails unique, every column within 255 characters and free of NUL |
| UsersRoute.ErrorResponse | src/app/api/users/route.ts:60-73 | ValidationError gives 400 and ConflictError gives 409, both with the error's message; any other error gives 500 with "Internal server error", never its own message |
| UsersRoute.GetOneResponse | src/app/api/users/route.ts:18-25 | GET with an id: 200 with the user, 404 on null, 500 with "Internal server error" on a thrown error |
| UsersRoute.GetAllResponse | src/app/api/users/route.ts:27-36 | GET without an id: 200 with the list, 500 with "Internal server error" on a thrown error |
| UsersRoute.PatchResponse | src/app/api/users/route.ts:53-73 | PATCH: 200 with the user, 404 on null, 400/409/500 by error kind |
| UsersRoute.DeleteResponse | src/app/api/users/route.ts:90-103 | DELETE: 200 with the confirmation message on true, 404 on false, 500 with "Internal server error" on a thrown error |
| UsersRoute.PostResponse | src/app/api/users/route.ts:106-128 | POST: 201 with the service's projection on success, 400/409/500 by error kind |
| UsersRoute.HandleGet | src/app/api/users/route.ts:12-29 | a non-empty id gives 200 with the row's projection if the row exists, and 404 "User not found" otherwise; an absent or empty id gives 200 with the full list |
| UsersRoute.HandlePatch | src/app/api/users/route.ts:39-59 | an absent or empty id gives 400 without calling the service; an unparsable body gives 500 with "Internal server error"; otherwise the response follows updateUser; any non-200 response leaves the table unchanged |
| UsersRoute.HandleDelete | src/app/api/users/route.ts:77-96 | an absent or empty id gives 400 without calling the service; otherwise 200 with the confirmation message iff the row existed, else 404; any non-200 leaves the table unchanged |
| UsersRoute.HandlePost | src/app/api/users/route.ts:106-114 | an unparsable body gives 500 with "Internal server error"; otherwise the response follows createUser; any non-201 response leaves the table unchanged; the table stays valid |
| UsersRoute.PatchAndPostMapErrorsAlike | src/app/api/users/route.ts:115-128 | PATCH and POST map every error to the same response; GET and DELETE map every error to 500 |
| UsersRoute.TestUserIsValid | src/app/api/__tests__/users.test.ts:7-12 | the integration tests' user passes all three create checks |
| UsersRoute.CreateTestUser | src/app/api/__tests__/users.test.ts:24-43 | creating the integration tests' user in an empty table returns its id, name, email, role and both timestamps |
| UsersRoute.PostTestUserTwice | src/app/api/__tests__/users.test.ts:24-80 | posting the test user to an empty table gives 201 with id, name, email and role, and no password; posting it again gives 409 and changes nothing |
| UsersRoute.PostInvalidEmail | src/app/api/__tests__/users.test.ts:45-62 | posting with email "invalid-email" gives 400 with the email message and writes nothing |

## Left out

- bcrypt: hashing is an arbitrary function parameter. Nothing is claimed about salting, irreversibility or the length of a hash. A hash the password column cannot take (one with a NUL, or over 255 characters other than trailing spaces) is refused like any other such value.
- Database access: the table is an in-memory map. Ids and timestamps are parameters, because the helpers that generate them (`schemaHelpers`) are not part of this model. So is the id column's type, so ids are compared as plain strings. Connection failures are not generated by the model; the route functions accept a thrown error as an outcome instead.
- Concurrency: calls are sequential, so the window between `createUser`'s conflict check and its insert is not modelled. Neither is the same window in `updateUser`.
- HTTP plumbing: `NextResponse`, URL parsing beyond whether `id` is present and non-empty, and `console.error` are left out. The request body is assumed to be well-typed whenever it parses; the `as CreateUserDto` casts are unchecked in the code.
- PostgreSQL's check order: when several constraints fail at once, the model reports a NUL first (the parameters are refused when bound), then a value too long (the parameters are cast before any row is read), then a duplicate id or email. Every such refusal maps to 500, so only the error message depends on this order.
- Ids in queries: a NUL, or an id the id column's type does not accept, makes `getUser`, `updateUser` and `deleteUser` fail in the database. The id column's type is not part of this model, so ids are never refused.
- List order: `getUsers` and the GET list return a JSON array in the database's row order; the model returns a set, so the order is dropped. In a `Valid` table rows are keyed by their own id, so their projections are distinct and no duplicate is lost.
- Lengths: a string's length is its number of code points. JavaScript's `length` counts UTF-16 code units, so names and passwords with characters outside the Basic Multilingual Plane are measured differently.
- UserServiceProperties.UpdateRepeatable: excludes updates that set a non-empty password, because a real bcrypt hash is salted and differs on each call.
- The PATIENT-only role check and `MethodNotAllowedError`: neither exists in the code.
- Seeding, environment loading, the database connection and the styling helpers are configuration, not service logic.
