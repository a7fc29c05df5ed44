/** The user service: listing, lookup, removal, partial update and creation
    of users over the `users` table. Every call runs on its own, in sequence;
    an operation either returns or throws, and returns the table it leaves. */
module UserService {
  import opened UserTypes
  import opened UsersSchema
  import opened Validators

  /** The password hash: bcrypt in the service, here any function of the
      password and the cost factor. */
  type Hasher = (string, nat) -> string

  /** The bcrypt cost factor the service passes. */
  const SaltRounds: nat := 10

  const MinNameLength: nat := 2

  const NameMessage := "Name must be at least 2 characters long"
  const EmailMessage := "Invalid email format"
  const PasswordMessage := "Password must be at least 8 characters long"
  const ConflictMessage := "Email already exists"

  /** What a call returned or threw, and the table afterwards. */
  datatype Step<+T> = Step(outcome: Outcome<T>, store: Store)

  /** The columns every read selects: all but the password. */
  function Project(u: User): (r: UserResponse)
    ensures r.id == u.id && r.name == u.name && r.email == u.email && r.role == u.role
    ensures r.createdAt == u.createdAt && r.updatedAt == u.updatedAt
  {
    UserResponse(u.id, u.name, u.email, u.role, u.createdAt, u.updatedAt)
  }

  /** An email that passes `validateEmail` has no spaces, so a varchar(255)
      column either takes it whole or refuses it: it is never cut. */
  lemma ValidEmailIsNeverCut(email: string)
    ensures ValidateEmail(email) ==> (FitsVarchar(email) <==> |email| <= MaxLength)
    ensures ValidateEmail(email) && FitsVarchar(email) ==> Cut(email) == email
  {
    if ValidateEmail(email) && |email| > MaxLength {
      assert IsWhitespace(email[MaxLength]) || email[MaxLength] != ' ';
    }
  }

  /** `getUsers`: every row, projected. */
  function GetUsers(store: Store): (r: set<UserResponse>)
    ensures forall k | k in store :: Project(store[k]) in r
    ensures forall p | p in r :: exists k | k in store :: p == Project(store[k])
  {
    set k | k in store :: Project(store[k])
  }

  /** `getUser`: the row whose id is `id`, projected, or null. */
  function GetUser(store: Store, id: Id): (r: Option<UserResponse>)
    ensures Valid(store) ==> (r.Some? <==> exists k | k in store :: store[k].id == id)
    ensures r.Some? ==> id in store && r.value == Project(store[id])
  {
    if id in store then Some(Project(store[id])) else None
  }

  /** `deleteUser`: true iff a row was removed. */
  function DeleteUser(store: Store, id: Id): (r: Step<bool>)
    ensures r.outcome == Returned(id in store)
    ensures id !in r.store
    ensures forall k | k in store && k != id :: k in r.store && r.store[k] == store[k]
    ensures r.store.Keys <= store.Keys
    ensures Valid(store) ==> Valid(r.store)
  {
    Step(Returned(id in store), DeleteRow(store, id))
  }

  /** The three checks `updateUser` applies, each to a field that is present
      and non-empty. */
  predicate UpdateInputValid(dto: UpdateUserDto) {
    && (Truthy(dto.email) ==> ValidateEmail(dto.email.value))
    && (Truthy(dto.password) ==> ValidatePassword(dto.password.value))
    && (Truthy(dto.name) ==> |dto.name.value| >= MinNameLength)
  }

  /** The conflict `updateUser` reports: a non-empty new email that a row
      other than `id` already holds. */
  predicate UpdateConflict(store: Store, id: Id, dto: UpdateUserDto) {
    Truthy(dto.email) && HeldByOther(store, dto.email.value, id)
  }

  /** The row `v` is `u` with exactly the supplied fields replaced: a
      non-empty password by its hash, any other supplied value as given
      (an empty string included), and `updatedAt` set to `now`. A name or
      password is kept as its varchar(255) column keeps it; an email is kept
      whole. */
  predicate ChangedAsRequested(u: User, v: User, dto: UpdateUserDto, hash: Hasher, now: Time) {
    && v.id == u.id
    && v.createdAt == u.createdAt
    && v.updatedAt == now
    && (if dto.name.Some? then StoredAs(v.name, dto.name.value) else v.name == u.name)
    && v.email == (if dto.email.Some? then dto.email.value else u.email)
    && v.role == (if dto.role.Some? then dto.role.value else u.role)
    && (match dto.password
        case None => v.password == u.password
        case Some(p) => StoredAs(v.password, if |p| > 0 then hash(p, SaltRounds) else p))
  }

  /** The fields `updateUser` hands to the database: the request, with a
      non-empty password replaced by its hash. */
  function UpdateData(dto: UpdateUserDto, hash: Hasher): Patch {
    Patch(dto.name, dto.email,
          if Truthy(dto.password) then Some(hash(dto.password.value, SaltRounds)) else dto.password,
          dto.role)
  }

  /** The rows the conflict lookup of `updateUser` finds: none when the new
      email is absent or empty, since the lookup is then skipped. */
  function UpdateLookup(store: Store, dto: UpdateUserDto): DbResult<set<Id>> {
    if Truthy(dto.email) then FindByEmail(store, dto.email.value) else Done({})
  }

  /** `updateUser`: validate the present fields (email, then password, then
      name), reject an email held by another user, then merge. All of this
      happens before the table is asked whether `id` exists. */
  function UpdateUser(store: Store, id: Id, dto: UpdateUserDto, hash: Hasher, now: Time): (r: Step<Option<UserResponse>>)
    ensures Truthy(dto.email) && !ValidateEmail(dto.email.value) ==>
              r.outcome == Threw(ValidationError(EmailMessage))
    ensures (Truthy(dto.email) ==> ValidateEmail(dto.email.value))
            && Truthy(dto.password) && !ValidatePassword(dto.password.value) ==>
              r.outcome == Threw(ValidationError(PasswordMessage))
    ensures (Truthy(dto.email) ==> ValidateEmail(dto.email.value))
            && (Truthy(dto.password) ==> ValidatePassword(dto.password.value))
            && Truthy(dto.name) && |dto.name.value| < MinNameLength ==>
              r.outcome == Threw(ValidationError(NameMessage))
    ensures (r.outcome.Threw? && r.outcome.error.ValidationError?) <==> !UpdateInputValid(dto)
    ensures UpdateInputValid(dto) && Truthy(dto.email) && !Encodable(dto.email.value) ==>
              r.outcome == Threw(OtherError(DbMessage(InvalidText)))
    ensures r.outcome.Threw? && r.outcome.error.ConflictError? ==> r.outcome.error.message == ConflictMessage
    ensures r.outcome == Threw(ConflictError(ConflictMessage)) <==>
              && UpdateInputValid(dto) && UpdateConflict(store, id, dto)
              && (Truthy(dto.email) ==> Encodable(dto.email.value))
    ensures r.outcome == Returned(None) <==>
              && UpdateInputValid(dto) && !UpdateConflict(store, id, dto)
              && PatchAssignable(UpdateData(dto, hash)) && id !in store
    ensures r.outcome.Returned? && r.outcome.value.Some? <==>
              && UpdateInputValid(dto) && !UpdateConflict(store, id, dto)
              && PatchAssignable(UpdateData(dto, hash)) && id in store
              && !HeldByOther(store, Override(dto.email, store[id].email), id)
    ensures r.outcome.Threw? || r.outcome == Returned(None) ==> r.store == store
    ensures r.outcome.Returned? && r.outcome.value.Some? ==>
              && id in store && id in r.store
              && ChangedAsRequested(store[id], r.store[id], dto, hash, now)
              && r.store == store[id := r.store[id]]
              && r.outcome.value.value == Project(r.store[id])
    ensures Valid(store) ==> Valid(r.store)
  {
    if Truthy(dto.email) && !ValidateEmail(dto.email.value) then
      Step(Threw(ValidationError(EmailMessage)), store)
    else if Truthy(dto.password) && !ValidatePassword(dto.password.value) then
      Step(Threw(ValidationError(PasswordMessage)), store)
    else if Truthy(dto.name) && |dto.name.value| < MinNameLength then
      Step(Threw(ValidationError(NameMessage)), store)
    else
      match UpdateLookup(store, dto)
      case Rejected(e) => Step(Threw(OtherError(DbMessage(e))), store)
      case Done(holders) =>
        if exists k | k in holders :: k != id then
          Step(Threw(ConflictError(ConflictMessage)), store)
        else WriteUpdate(store, id, dto, hash, now)
  }

  /** The `UPDATE` statement `updateUser` issues once its checks have passed,
      and what it makes of the statement's result. */
  function WriteUpdate(store: Store, id: Id, dto: UpdateUserDto, hash: Hasher, now: Time): (r: Step<Option<UserResponse>>)
    requires Truthy(dto.email) ==> ValidateEmail(dto.email.value)
    ensures r.outcome.Threw? ==> r.outcome.error.OtherError?
    ensures r.outcome == Returned(None) <==> PatchAssignable(UpdateData(dto, hash)) && id !in store
    ensures r.outcome.Returned? && r.outcome.value.Some? <==>
              && PatchAssignable(UpdateData(dto, hash)) && id in store
              && !HeldByOther(store, Override(dto.email, store[id].email), id)
    ensures r.outcome.Threw? || r.outcome == Returned(None) ==> r.store == store
    ensures r.outcome.Returned? && r.outcome.value.Some? ==>
              && id in store && id in r.store
              && ChangedAsRequested(store[id], r.store[id], dto, hash, now)
              && r.store == store[id := r.store[id]]
              && r.outcome.value.value == Project(r.store[id])
    ensures Valid(store) ==> Valid(r.store)
  {
    ValidEmailIsNeverCut(Override(dto.email, ""));
    match UpdateRow(store, id, UpdateData(dto, hash), now)
    case Rejected(e) => Step(Threw(OtherError(DbMessage(e))), store)
    case Done(Updated(row, after)) =>
      Step(Returned(if row.Some? then Some(Project(row.value)) else None), after)
  }

  /** The three checks `createUser` applies, all fields being required. */
  predicate CreateInputValid(dto: CreateUserDto) {
    |dto.name| >= MinNameLength && ValidateEmail(dto.email) && ValidatePassword(dto.password)
  }

  /** The values `createUser` inserts, with `id` and `now` the values the
      database generates for the new row. */
  function NewUser(dto: CreateUserDto, hash: Hasher, id: Id, now: Time): User {
    User(id, dto.name, dto.email, hash(dto.password, SaltRounds), dto.role, now, now)
  }

  /** `createUser`: validate name, then email, then password; reject an email
      already held; then insert with the hashed password and return the row
      as stored. `id` and `now` are the values the database generates for
      the new row. Any role is accepted. */
  function CreateUser(store: Store, dto: CreateUserDto, hash: Hasher, id: Id, now: Time): (r: Step<UserResponse>)
    ensures |dto.name| < MinNameLength ==> r.outcome == Threw(ValidationError(NameMessage))
    ensures |dto.name| >= MinNameLength && !ValidateEmail(dto.email) ==>
              r.outcome == Threw(ValidationError(EmailMessage))
    ensures |dto.name| >= MinNameLength && ValidateEmail(dto.email) && !ValidatePassword(dto.password) ==>
              r.outcome == Threw(ValidationError(PasswordMessage))
    ensures (r.outcome.Threw? && r.outcome.error.ValidationError?) <==> !CreateInputValid(dto)
    ensures CreateInputValid(dto) && !Encodable(dto.email) ==>
              r.outcome == Threw(OtherError(DbMessage(InvalidText)))
    ensures r.outcome.Threw? && r.outcome.error.ConflictError? ==> r.outcome.error.message == ConflictMessage
    ensures r.outcome == Threw(ConflictError(ConflictMessage)) <==>
              CreateInputValid(dto) && Encodable(dto.email) && EmailTaken(store, dto.email)
    ensures r.outcome.Threw? ==> r.store == store
    ensures r.outcome.Returned? <==>
              && CreateInputValid(dto) && !EmailTaken(store, dto.email)
              && RowAssignable(NewUser(dto, hash, id, now)) && id !in store
    ensures r.outcome.Returned? ==>
              && r.store.Keys == store.Keys + {id}
              && (forall k | k in store :: r.store[k] == store[k])
              && StoredAs(r.store[id].name, dto.name)
              && r.store[id].email == dto.email
              && r.store[id].role == dto.role
              && StoredAs(r.store[id].password, hash(dto.password, SaltRounds))
              && r.store[id].createdAt == now && r.store[id].updatedAt == now
              && r.outcome.value == Project(r.store[id])
    ensures Valid(store) ==> Valid(r.store)
  {
    if |dto.name| < MinNameLength then
      Step(Threw(ValidationError(NameMessage)), store)
    else if !ValidateEmail(dto.email) then
      Step(Threw(ValidationError(EmailMessage)), store)
    else if !ValidatePassword(dto.password) then
      Step(Threw(ValidationError(PasswordMessage)), store)
    else
      match FindByEmail(store, dto.email)
      case Rejected(e) => Step(Threw(OtherError(DbMessage(e))), store)
      case Done(holders) =>
        if holders != {} then
          Step(Threw(ConflictError(ConflictMessage)), store)
        else
          ValidEmailIsNeverCut(dto.email);
          match InsertRow(store, NewUser(dto, hash, id, now))
          case Rejected(e) => Step(Threw(OtherError(DbMessage(e))), store)
          case Done(Inserted(row, after)) => Step(Returned(Project(row)), after)
  }
}
