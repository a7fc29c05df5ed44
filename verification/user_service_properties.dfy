/** Properties that relate several user-service calls: reads never depend on
    a password, a created user can be read back and deleted again, a second
    create with the same email conflicts, any sequence of writes keeps the
    table's constraints, and the corners of `updateUser`'s truthiness tests. */
module UserServiceProperties {
  import opened UserTypes
  import opened UsersSchema
  import opened UserService

  /** Two rows project alike exactly when they differ at most in the password. */
  lemma ProjectionForgetsOnlyPassword(u: User, v: User)
    ensures Project(u) == Project(v) <==> u.(password := v.password) == v
  {
  }

  /** Two tables that differ only in stored passwords answer every read alike. */
  lemma ReadsIgnorePasswords(s1: Store, s2: Store, id: Id)
    requires s1.Keys == s2.Keys
    requires forall k | k in s1 :: s1[k].(password := s2[k].password) == s2[k]
    ensures GetUser(s1, id) == GetUser(s2, id)
    ensures GetUsers(s1) == GetUsers(s2)
  {
  }

  /** The single-user read and the list agree: what one returns the other
      lists, and in a valid table each listed user can be read by its id. */
  lemma GetUserAgreesWithGetUsers(store: Store, id: Id, p: UserResponse)
    ensures GetUser(store, id) == Some(p) ==> p in GetUsers(store)
    ensures Valid(store) && p in GetUsers(store) ==> GetUser(store, p.id) == Some(p)
  {
  }

  /** A created user reads back as the response `createUser` returned. */
  lemma CreateThenGetUser(store: Store, dto: CreateUserDto, hash: Hasher, id: Id, now: Time)
    requires CreateUser(store, dto, hash, id, now).outcome.Returned?
    ensures var r := CreateUser(store, dto, hash, id, now);
            GetUser(r.store, id) == Some(r.outcome.value)
  {
  }

  /** Deleting a freshly created user reports a removal and gives back the
      table as it was before the create. */
  lemma CreateThenDeleteRestores(store: Store, dto: CreateUserDto, hash: Hasher, id: Id, now: Time)
    requires CreateUser(store, dto, hash, id, now).outcome.Returned?
    ensures DeleteUser(CreateUser(store, dto, hash, id, now).store, id) == Step(Returned(true), store)
  {
  }

  /** Once deleted, a user can no longer be read. */
  lemma DeleteThenGetUser(store: Store, id: Id)
    ensures GetUser(DeleteUser(store, id).store, id) == None
  {
  }

  /** Repeating a successful create, with any new id and time, fails with a
      conflict and leaves the table alone. */
  lemma DuplicateCreateConflicts(store: Store, dto: CreateUserDto, hash: Hasher,
                                 id: Id, now: Time, id': Id, now': Time)
    requires CreateUser(store, dto, hash, id, now).outcome.Returned?
    ensures var after := CreateUser(store, dto, hash, id, now).store;
            CreateUser(after, dto, hash, id', now') == Step(Threw(ConflictError(ConflictMessage)), after)
  {
  }

  /** The role plays no part in whether a create succeeds: there is no
      PATIENT-only restriction. */
  lemma CreateAcceptsAnyRole(store: Store, dto: CreateUserDto, hash: Hasher, id: Id, now: Time, role: Role)
    ensures CreateUser(store, dto.(role := role), hash, id, now).outcome.Returned?
            <==> CreateUser(store, dto, hash, id, now).outcome.Returned?
  {
  }

  /** The only reasons the database refuses a create that passed the
      service's checks are a value its column cannot take (a NUL, or more
      than 255 characters that are not trailing spaces) and an id already in
      use. */
  lemma CreateRejectedByDatabase(store: Store, dto: CreateUserDto, hash: Hasher, id: Id, now: Time)
    requires CreateUser(store, dto, hash, id, now).outcome.Threw?
    requires CreateUser(store, dto, hash, id, now).outcome.error.OtherError?
    ensures CreateInputValid(dto)
    ensures !RowAssignable(NewUser(dto, hash, id, now)) || (!EmailTaken(store, dto.email) && id in store)
  {
  }

  /** A name that runs past 255 characters only in spaces is cut to its
      first 255 characters, and the create succeeds. */
  lemma PaddedNameIsCut(store: Store, dto: CreateUserDto, hash: Hasher, id: Id, now: Time)
    requires CreateInputValid(dto) && !EmailTaken(store, dto.email) && id !in store
    requires Assignable(hash(dto.password, SaltRounds))
    requires Assignable(dto.email) && Encodable(dto.name) && |dto.name| > MaxLength
    requires forall k | MaxLength <= k < |dto.name| :: dto.name[k] == ' '
    ensures var r := CreateUser(store, dto, hash, id, now);
            r.outcome.Returned? && r.outcome.value.name == dto.name[..MaxLength]
  {
  }

  /** A name holding a NUL passes the service's checks but is refused by the
      database, and nothing is written. */
  lemma NulNameRefused(store: Store, dto: CreateUserDto, hash: Hasher, id: Id, now: Time)
    requires CreateInputValid(dto) && !EmailTaken(store, dto.email)
    requires exists k | 0 <= k < |dto.name| :: dto.name[k] == '\0'
    ensures CreateUser(store, dto, hash, id, now)
            == Step(Threw(OtherError(DbMessage(InvalidText))), store)
  {
  }

  /** A user sending back its own email is not in conflict with itself. */
  lemma KeepingOwnEmailIsNoConflict(store: Store, id: Id, dto: UpdateUserDto)
    requires Valid(store) && id in store
    requires dto.email == Some(store[id].email)
    ensures !UpdateConflict(store, id, dto)
  {
  }

  /** An updated user reads back as the response `updateUser` returned. */
  lemma UpdateThenGetUser(store: Store, id: Id, dto: UpdateUserDto, hash: Hasher, now: Time)
    requires UpdateUser(store, id, dto, hash, now).outcome.Returned?
    ensures var r := UpdateUser(store, id, dto, hash, now);
            GetUser(r.store, id) == r.outcome.value
  {
  }

  /** Re-running a successful `UPDATE` with the same values at the same
      instant changes nothing further and returns the same row. */
  lemma UpdateRowRepeatable(store: Store, id: Id, p: Patch, now: Time)
    requires UpdateRow(store, id, p, now).Done?
    ensures var first := UpdateRow(store, id, p, now).value;
            UpdateRow(first.store, id, p, now) == Done(first)
  {
    var first := UpdateRow(store, id, p, now).value;
    if id in store {
      var v := first.store[id];
      assert ApplyPatch(v, CutPatch(p), now) == v;
      assert first.store[id := v] == first.store;
      assert !HeldByOther(first.store, v.email, id);
    }
  }

  /** An update that sets no password can be repeated at the same instant
      with no further effect. (A bcrypt hash is salted, so a repeated
      password change stores a different hash; that case is excluded.) */
  lemma UpdateRepeatable(store: Store, id: Id, dto: UpdateUserDto, hash: Hasher, now: Time)
    requires !Truthy(dto.password)
    requires UpdateUser(store, id, dto, hash, now).outcome.Returned?
    ensures var first := UpdateUser(store, id, dto, hash, now);
            UpdateUser(first.store, id, dto, hash, now) == first
  {
    var first := UpdateUser(store, id, dto, hash, now);
    UpdateRowRepeatable(store, id, UpdateData(dto, hash), now);
    assert first == WriteUpdate(store, id, dto, hash, now);
    assert UpdateLookup(first.store, dto).Done?;
    assert !exists k | k in UpdateLookup(first.store, dto).value :: k != id;
  }

  /** In a valid table the database refuses an update that passed the
      service's checks only when an assigned value is one its column cannot
      take (a NUL, or more than 255 characters that are not trailing
      spaces), whether or not the id exists, or when the new email is the
      empty string (which skips the conflict check) and another user already
      holds it. */
  lemma UpdateRejectedByDatabase(store: Store, id: Id, dto: UpdateUserDto, hash: Hasher, now: Time)
    requires Valid(store)
    requires UpdateUser(store, id, dto, hash, now).outcome.Threw?
    requires UpdateUser(store, id, dto, hash, now).outcome.error.OtherError?
    ensures UpdateInputValid(dto)
    ensures || !PatchAssignable(UpdateData(dto, hash))
            || (id in store && dto.email == Some("") && HeldByOther(store, "", id))
  {
  }

  /** The truthiness corner: an empty password skips the length check and the
      hashing, and is stored as the empty string. */
  lemma EmptyPasswordStoredVerbatim(store: Store, id: Id, hash: Hasher, now: Time)
    requires Valid(store) && id in store
    ensures var r := UpdateUser(store, id, UpdateUserDto(None, None, Some(""), None), hash, now);
            r.outcome.Returned? && r.outcome.value.Some? && r.store[id].password == ""
  {
  }

  /** The other truthiness corner: an empty email skips the format check and
      the conflict check, and replaces the stored email when no other user
      holds the empty string. */
  lemma EmptyEmailStoredVerbatim(store: Store, id: Id, hash: Hasher, now: Time)
    requires Valid(store) && id in store
    requires !HeldByOther(store, "", id)
    ensures var r := UpdateUser(store, id, UpdateUserDto(None, Some(""), None, None), hash, now);
            r.outcome.Returned? && r.outcome.value.Some? && r.store[id].email == ""
  {
  }

  /** A write request, with the values the database generates for it. */
  datatype Write =
    | CreateCall(dto: CreateUserDto, id: Id, now: Time)
    | UpdateCall(target: Id, patch: UpdateUserDto, now: Time)
    | DeleteCall(target: Id)

  /** The table after one write, whatever the write returned or threw. */
  function Perform(store: Store, w: Write, hash: Hasher): Store {
    match w
    case CreateCall(dto, id, now) => CreateUser(store, dto, hash, id, now).store
    case UpdateCall(id, dto, now) => UpdateUser(store, id, dto, hash, now).store
    case DeleteCall(id) => DeleteUser(store, id).store
  }

  /** The table after a sequence of writes, one after the other. */
  function PerformAll(store: Store, ws: seq<Write>, hash: Hasher): Store
    decreases |ws|
  {
    if |ws| == 0 then store else PerformAll(Perform(store, ws[0], hash), ws[1..], hash)
  }

  /** However the calls succeed or fail, a valid table stays valid: every
      column stays within its limit and, the property the unique constraint
      exists for, spelled out although `Valid` includes it, no two users
      share an email. */
  lemma {:induction false} WritesKeepTableValid(store: Store, ws: seq<Write>, hash: Hasher)
    requires Valid(store)
    ensures Valid(PerformAll(store, ws, hash))
    ensures UniqueEmails(PerformAll(store, ws, hash))
    decreases |ws|
  {
    if |ws| > 0 {
      WritesKeepTableValid(Perform(store, ws[0], hash), ws[1..], hash);
    }
  }
}
