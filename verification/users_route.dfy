/** The `/api/users` route: how each HTTP method turns the `id` query
    parameter and the outcome of the service call into a status and a JSON
    body, and the handlers that make those calls against the table. The
    status codes are those of RFC 9110: 200 OK (section 15.3.1), 201 Created
    (section 15.3.2), 400 Bad Request (section 15.5.1), 404 Not Found
    (section 15.5.5), 409 Conflict (section 15.5.10) and 500 Internal Server
    Error (section 15.6.1). */
module UsersRoute {
  import opened UserTypes
  import opened UsersSchema
  import opened UserService
  import opened UserServiceProperties
  import opened Validators

  const StatusOk: nat := 200
  const StatusCreated: nat := 201
  const StatusBadRequest: nat := 400
  const StatusNotFound: nat := 404
  const StatusConflict: nat := 409
  const StatusInternalError: nat := 500

  const NotFoundMessage := "User not found"
  const MissingIdMessage := "User ID is required"
  const InternalMessage := "Internal server error"
  const DeletedMessage := "User deleted successfully"

  /** The JSON bodies the route sends. */
  datatype Body =
    | UserJson(user: UserResponse)
    | UserListJson(users: set<UserResponse>)
    | ErrorJson(error: string)
    | MessageJson(message: string)

  datatype Response = Response(status: nat, body: Body)

  /** The catch clause of PATCH and POST: the two domain errors keep their
      message, everything else is an internal error. */
  function ErrorResponse(e: ServiceError): (r: Response)
    ensures r.status == StatusBadRequest <==> e.ValidationError?
    ensures r.status == StatusConflict <==> e.ConflictError?
    ensures r.status == StatusInternalError <==> e.OtherError?
    ensures !e.OtherError? ==> r.body == ErrorJson(e.message)
    ensures e.OtherError? ==> r.body == ErrorJson(InternalMessage)
  {
    match e
    case ValidationError(m) => Response(StatusBadRequest, ErrorJson(m))
    case ConflictError(m) => Response(StatusConflict, ErrorJson(m))
    case OtherError(_) => Response(StatusInternalError, ErrorJson(InternalMessage))
  }

  /** GET with an id: the outcome of `getUser(id)`. */
  function GetOneResponse(o: Outcome<Option<UserResponse>>): (r: Response)
    ensures r.status == StatusOk <==> o.Returned? && o.value.Some?
    ensures r.status == StatusOk ==> r.body == UserJson(o.value.value)
    ensures r.status == StatusNotFound <==> o == Returned(None)
    ensures r.status == StatusInternalError <==> o.Threw?
    ensures o.Threw? ==> r.body == ErrorJson(InternalMessage)
  {
    match o
    case Returned(Some(u)) => Response(StatusOk, UserJson(u))
    case Returned(None) => Response(StatusNotFound, ErrorJson(NotFoundMessage))
    case Threw(_) => Response(StatusInternalError, ErrorJson(InternalMessage))
  }

  /** GET without an id: the outcome of `getUsers()`. */
  function GetAllResponse(o: Outcome<set<UserResponse>>): (r: Response)
    ensures r.status == StatusOk <==> o.Returned?
    ensures r.status == StatusOk ==> r.body == UserListJson(o.value)
    ensures r.status == StatusInternalError <==> o.Threw?
    ensures o.Threw? ==> r.body == ErrorJson(InternalMessage)
  {
    match o
    case Returned(users) => Response(StatusOk, UserListJson(users))
    case Threw(_) => Response(StatusInternalError, ErrorJson(InternalMessage))
  }

  /** PATCH with an id: the outcome of `updateUser(id, body)`. */
  function PatchResponse(o: Outcome<Option<UserResponse>>): (r: Response)
    ensures r.status == StatusOk <==> o.Returned? && o.value.Some?
    ensures r.status == StatusOk ==> r.body == UserJson(o.value.value)
    ensures r.status == StatusNotFound <==> o == Returned(None)
    ensures r.status == StatusBadRequest <==> o.Threw? && o.error.ValidationError?
    ensures r.status == StatusConflict <==> o.Threw? && o.error.ConflictError?
    ensures r.status == StatusInternalError <==> o.Threw? && o.error.OtherError?
  {
    match o
    case Returned(Some(u)) => Response(StatusOk, UserJson(u))
    case Returned(None) => Response(StatusNotFound, ErrorJson(NotFoundMessage))
    case Threw(e) => ErrorResponse(e)
  }

  /** DELETE with an id: the outcome of `deleteUser(id)`. */
  function DeleteResponse(o: Outcome<bool>): (r: Response)
    ensures r.status == StatusOk <==> o == Returned(true)
    ensures r.status == StatusOk ==> r.body == MessageJson(DeletedMessage)
    ensures r.status == StatusNotFound <==> o == Returned(false)
    ensures r.status == StatusInternalError <==> o.Threw?
    ensures o.Threw? ==> r.body == ErrorJson(InternalMessage)
  {
    match o
    case Returned(true) => Response(StatusOk, MessageJson(DeletedMessage))
    case Returned(false) => Response(StatusNotFound, ErrorJson(NotFoundMessage))
    case Threw(_) => Response(StatusInternalError, ErrorJson(InternalMessage))
  }

  /** POST: the outcome of `createUser(body)`. */
  function PostResponse(o: Outcome<UserResponse>): (r: Response)
    ensures r.status == StatusCreated <==> o.Returned?
    ensures r.status == StatusCreated ==> r.body == UserJson(o.value)
    ensures r.status == StatusBadRequest <==> o.Threw? && o.error.ValidationError?
    ensures r.status == StatusConflict <==> o.Threw? && o.error.ConflictError?
    ensures r.status == StatusInternalError <==> o.Threw? && o.error.OtherError?
  {
    match o
    case Returned(u) => Response(StatusCreated, UserJson(u))
    case Threw(e) => ErrorResponse(e)
  }

  /** The error `request.json()` throws on a body that is not JSON. */
  const MalformedBody := OtherError("Unexpected token in JSON")

  /** GET /api/users[?id=...] against the table. As in the other handlers,
      `if (id)` asks whether the query parameter is present and not empty. */
  function HandleGet(store: Store, id: Option<string>): (r: Response)
    ensures Truthy(id) ==> (r.status == StatusOk <==> id.value in store)
    ensures Truthy(id) && id.value in store ==> r.body == UserJson(Project(store[id.value]))
    ensures Truthy(id) && id.value !in store ==> r == Response(StatusNotFound, ErrorJson(NotFoundMessage))
    ensures !Truthy(id) ==> r == Response(StatusOk, UserListJson(GetUsers(store)))
  {
    if Truthy(id) then GetOneResponse(Returned(GetUser(store, id.value)))
    else GetAllResponse(Returned(GetUsers(store)))
  }

  /** PATCH /api/users?id=... with a body that may fail to parse. The id is
      checked before the body is read. */
  function HandlePatch(store: Store, id: Option<string>, body: Option<UpdateUserDto>, hash: Hasher, now: Time): (r: (Response, Store))
    ensures !Truthy(id) ==> r == (Response(StatusBadRequest, ErrorJson(MissingIdMessage)), store)
    ensures Truthy(id) && body.None? ==> r == (Response(StatusInternalError, ErrorJson(InternalMessage)), store)
    ensures Truthy(id) && body.Some? ==>
              var step := UpdateUser(store, id.value, body.value, hash, now);
              r == (PatchResponse(step.outcome), step.store)
    ensures r.0.status != StatusOk ==> r.1 == store
  {
    if !Truthy(id) then (Response(StatusBadRequest, ErrorJson(MissingIdMessage)), store)
    else match body
      case None => (PatchResponse(Threw(MalformedBody)), store)
      case Some(dto) =>
        var step := UpdateUser(store, id.value, dto, hash, now);
        (PatchResponse(step.outcome), step.store)
  }

  /** DELETE /api/users?id=... */
  function HandleDelete(store: Store, id: Option<string>): (r: (Response, Store))
    ensures !Truthy(id) ==> r == (Response(StatusBadRequest, ErrorJson(MissingIdMessage)), store)
    ensures Truthy(id) ==> (r.0.status == StatusOk <==> id.value in store)
    ensures Truthy(id) && id.value !in store ==> r.0.status == StatusNotFound
    ensures Truthy(id) ==> r.0 == DeleteResponse(Returned(id.value in store))
    ensures Truthy(id) ==> r.1 == store - {id.value}
    ensures r.0.status != StatusOk ==> r.1 == store
  {
    if !Truthy(id) then (Response(StatusBadRequest, ErrorJson(MissingIdMessage)), store)
    else
      var step := DeleteUser(store, id.value);
      (DeleteResponse(step.outcome), step.store)
  }

  /** POST /api/users with a body that may fail to parse; `newId` and `now`
      are the values the database generates for a new row. */
  function HandlePost(store: Store, body: Option<CreateUserDto>, hash: Hasher, newId: Id, now: Time): (r: (Response, Store))
    ensures body.None? ==> r == (Response(StatusInternalError, ErrorJson(InternalMessage)), store)
    ensures body.Some? ==>
              var step := CreateUser(store, body.value, hash, newId, now);
              r == (PostResponse(step.outcome), step.store)
    ensures r.0.status != StatusCreated ==> r.1 == store
    ensures Valid(store) ==> Valid(r.1)
  {
    match body
    case None => (PostResponse(Threw(MalformedBody)), store)
    case Some(dto) =>
      var step := CreateUser(store, dto, hash, newId, now);
      (PostResponse(step.outcome), step.store)
  }

  /** PATCH and POST share one catch clause, so an error maps to the same
      response whichever of the two threw it. */
  lemma PatchAndPostMapErrorsAlike(e: ServiceError)
    ensures PatchResponse(Threw(e)) == PostResponse(Threw(e)) == ErrorResponse(e)
    ensures GetOneResponse(Threw(e)).status == DeleteResponse(Threw(e)).status == StatusInternalError
  {
  }

  /** The request the integration tests send. */
  const TestUser := CreateUserDto("Test User", "test@example.com", "testpass123", Patient)

  /** The three runs of the test user's email, "test", "example" and "com",
      each match `[^\s@]+`. */
  lemma TestEmailRuns()
    ensures EmailRun("test") && EmailRun("example") && EmailRun("com")
  {
  }

  /** The test user passes the name, email and password checks. */
  lemma TestUserIsValid()
    ensures CreateInputValid(TestUser)
  {
    TestEmailRuns();
    var s := TestUser.email;
    var d := s[5..];
    assert s[4] == '@' && s[..4] == "test" && d == "example.com";
    assert d[7] == '.' && d[..7] == "example" && d[8..] == "com";
    assert DomainMatches(d);
  }

  /** The test user's name and email fit their columns as they are. */
  lemma TestUserFits()
    ensures Assignable(TestUser.name) && Assignable(TestUser.email)
    ensures Cut(TestUser.name) == TestUser.name
  {
  }

  /** Creating the test user in an empty table succeeds. */
  lemma TestUserInserted(hash: Hasher, id: Id, now: Time)
    requires Assignable(hash(TestUser.password, SaltRounds))
    ensures CreateUser(map[], TestUser, hash, id, now).outcome.Returned?
    ensures id in CreateUser(map[], TestUser, hash, id, now).store
  {
    TestUserIsValid();
    TestUserFits();
  }

  /** Creating the test user in an empty table returns its name, email and
      role as sent, both timestamps and the new id. */
  lemma CreateTestUser(hash: Hasher, id: Id, now: Time)
    requires Assignable(hash(TestUser.password, SaltRounds))
    ensures CreateUser(map[], TestUser, hash, id, now).outcome
            == Returned(UserResponse(id, "Test User", "test@example.com", Patient, now, now))
  {
    TestUserInserted(hash, id, now);
  }

  /** POSTing the test user to an empty table answers 201 with the user's
      name, email and role, an id, and no password; POSTing it again answers
      409 and leaves the table as the first POST left it. */
  lemma PostTestUserTwice(hash: Hasher, id: Id, now: Time, id': Id, now': Time)
    requires Assignable(hash(TestUser.password, SaltRounds))
    ensures var (first, store) := HandlePost(map[], Some(TestUser), hash, id, now);
            && first.status == StatusCreated
            && first.body == UserJson(UserResponse(id, "Test User", "test@example.com", Patient, now, now))
            && var (second, store') := HandlePost(store, Some(TestUser), hash, id', now');
               && second == Response(StatusConflict, ErrorJson(ConflictMessage))
               && store' == store
  {
    CreateTestUser(hash, id, now);
    DuplicateCreateConflicts(map[], TestUser, hash, id, now, id', now');
  }

  /** POSTing the test user with the email "invalid-email" answers 400 and
      writes nothing. */
  lemma PostInvalidEmail(store: Store, hash: Hasher, id: Id, now: Time)
    ensures HandlePost(store, Some(TestUser.(email := "invalid-email")), hash, id, now)
            == (Response(StatusBadRequest, ErrorJson(EmailMessage)), store)
  {
    var s := "invalid-email";
    assert forall a | 0 <= a < |s| :: s[a] != '@';
  }
}
