/** The `users` table: its row type, the constraints the database enforces
    (not-null columns, 255-character varchars, a unique email, a primary key,
    a four-valued role enum) and the three writes the service issues against
    it. The table is held in memory as a map from id to row. */
module UsersSchema {
  import opened UserTypes

  /** The length of every varchar column of the table. */
  const MaxLength: nat := 255

  /** The labels of the `user_role` database enum, in declaration order. */
  const RoleEnum: seq<string> := ["ADMIN", "DOCTOR", "PATIENT", "RECEPTIONIST"]

  /** The database enum and the `UserRole` type admit the same four values. */
  lemma RoleEnumMatchesRole(r: Role, s: string)
    ensures RoleName(r) in RoleEnum
    ensures s in RoleEnum <==> ParseRole(s).Some?
    ensures |RoleEnum| == 4
  {
  }

  /** A stored row. Every column is non-null, so every field is present. */
  datatype User = User(
    id: Id,
    name: string,
    email: string,
    password: string,
    role: Role,
    createdAt: Time,
    updatedAt: Time)

  type Store = map<Id, User>

  /** PostgreSQL's text types cannot hold the character NUL: a statement
      parameter containing one is refused when it is bound. */
  predicate Encodable(s: string) {
    forall k | 0 <= k < |s| :: s[k] != '\0'
  }

  /** A value a varchar(255) column can hold as it is. */
  predicate FitsColumn(s: string) {
    |s| <= MaxLength && Encodable(s)
  }

  /** The varchar(255) limits on name, email and the stored password. */
  predicate FitsColumns(u: User) {
    FitsColumn(u.name) && FitsColumn(u.email) && FitsColumn(u.password)
  }

  /** A value varchar(255) accepts on assignment: at most 255 characters, or
      more when everything past the 255th is a space. */
  predicate FitsVarchar(s: string) {
    |s| <= MaxLength || forall k | MaxLength <= k < |s| :: s[k] == ' '
  }

  /** A value a varchar(255) column accepts on assignment: no NUL, and no
      excess beyond 255 characters other than spaces. */
  predicate Assignable(s: string) {
    Encodable(s) && FitsVarchar(s)
  }

  /** `v` is what the column keeps of `s`: `s` itself, or the first 255
      characters of `s` when all that is cut off is spaces. */
  predicate StoredAs(v: string, s: string) {
    || v == s
    || (|s| > MaxLength && v == s[..MaxLength] && forall k | MaxLength <= k < |s| :: s[k] == ' ')
  }

  /** The value varchar(255) keeps of `s`: the explicit cast to the column's
      length, which cuts off whatever lies past the 255th character. */
  function Cut(s: string): (v: string)
    ensures |v| <= MaxLength && |v| <= |s| && v == s[..|v|]
    ensures StoredAs(v, s) <==> FitsVarchar(s)
    ensures Encodable(s) ==> Encodable(v)
  {
    if |s| <= MaxLength then s else s[..MaxLength]
  }

  /** Some row other than the one keyed `id` holds `email`. */
  predicate HeldByOther(store: Store, email: string, id: Id) {
    exists k | k in store :: k != id && store[k].email == email
  }

  /** Some row holds `email`. */
  predicate EmailTaken(store: Store, email: string) {
    exists k | k in store :: store[k].email == email
  }

  /** No two rows share an email (the unique constraint on `email`). */
  predicate UniqueEmails(store: Store) {
    forall j, k | j in store && k in store && j != k :: store[j].email != store[k].email
  }

  /** Every state the table can be in: rows are keyed by their own id, fit
      their columns, and have distinct emails. */
  predicate Valid(store: Store) {
    && (forall k | k in store :: store[k].id == k && FitsColumns(store[k]))
    && UniqueEmails(store)
  }

  /** Why the database refuses a statement. */
  datatype DbError = InvalidText | ValueTooLong | DuplicateKey(column: string)

  /** The message the driver attaches to the refusal. */
  function DbMessage(e: DbError): string {
    match e
    case InvalidText => "invalid byte sequence for encoding \"UTF8\": 0x00"
    case ValueTooLong => "value too long for type character varying(255)"
    case DuplicateKey(_) => "duplicate key value violates unique constraint"
  }

  datatype DbResult<+T> = Done(value: T) | Rejected(error: DbError)

  /** `SELECT ... WHERE email = $1`: the ids of the rows holding `email`. The
      comparison is between texts, so nothing is cut; only a NUL in the
      parameter makes the query fail. */
  function FindByEmail(store: Store, email: string): (r: DbResult<set<Id>>)
    ensures r.Done? <==> Encodable(email)
    ensures r.Done? ==> forall k :: k in r.value <==> k in store && store[k].email == email
  {
    if !Encodable(email) then Rejected(InvalidText)
    else Done(set k | k in store && store[k].email == email)
  }

  /** The three varchar columns of `row` can all be assigned. */
  predicate RowAssignable(row: User) {
    Assignable(row.name) && Assignable(row.email) && Assignable(row.password)
  }

  /** `v` is the row the table keeps for the values of `u`. */
  predicate StoredRow(v: User, u: User) {
    && v.id == u.id && v.role == u.role
    && v.createdAt == u.createdAt && v.updatedAt == u.updatedAt
    && StoredAs(v.name, u.name) && StoredAs(v.email, u.email) && StoredAs(v.password, u.password)
  }

  /** The result of an insert: the row it returned and the new table. */
  datatype Inserted = Inserted(row: User, store: Store)

  /** `INSERT ... RETURNING`. A NUL in any value is refused when the
      parameters are bound, an over-long value when they are cast to the
      column types, and a repeated id or email when the row is written; a
      refusal leaves the table as it was. Otherwise the row is added as the
      columns keep it, and that is what is returned. */
  function InsertRow(store: Store, row: User): (r: DbResult<Inserted>)
    ensures r.Done? <==>
              && RowAssignable(row) && row.id !in store
              && !EmailTaken(store, Cut(row.email))
    ensures r.Done? ==>
              && StoredRow(r.value.row, row)
              && r.value.store.Keys == store.Keys + {row.id}
              && r.value.store[row.id] == r.value.row
    ensures r.Done? ==> forall k | k in store :: r.value.store[k] == store[k]
    ensures r.Rejected? && !(Encodable(row.name) && Encodable(row.email) && Encodable(row.password)) ==>
              r.error == InvalidText
    ensures Valid(store) && r.Done? ==> Valid(r.value.store)
  {
    if !(Encodable(row.name) && Encodable(row.email) && Encodable(row.password)) then
      Rejected(InvalidText)
    else if !(FitsVarchar(row.name) && FitsVarchar(row.email) && FitsVarchar(row.password)) then
      Rejected(ValueTooLong)
    else
      var stored := row.(name := Cut(row.name), email := Cut(row.email), password := Cut(row.password));
      if row.id in store then Rejected(DuplicateKey("id"))
      else if EmailTaken(store, stored.email) then Rejected(DuplicateKey("email"))
      else Done(Inserted(stored, store[row.id := stored]))
  }

  /** The columns an `UPDATE ... SET` assigns; an absent field is not assigned. */
  datatype Patch = Patch(
    name: Option<string>,
    email: Option<string>,
    password: Option<string>,
    role: Option<Role>)

  /** A field that is present holds a value its column accepts. */
  predicate AssignableField(field: Option<string>) {
    field.Some? ==> Assignable(field.value)
  }

  /** Every assigned value is accepted by its column. */
  predicate PatchAssignable(p: Patch) {
    AssignableField(p.name) && AssignableField(p.email) && AssignableField(p.password)
  }

  function Override<T>(field: Option<T>, current: T): T {
    match field
    case Some(v) => v
    case None => current
  }

  /** The row after `SET ...patch, updatedAt = now`. */
  function ApplyPatch(u: User, p: Patch, now: Time): User {
    u.(name := Override(p.name, u.name),
       email := Override(p.email, u.email),
       password := Override(p.password, u.password),
       role := Override(p.role, u.role),
       updatedAt := now)
  }

  /** The values a patch writes, each cut to its column. */
  function CutPatch(p: Patch): Patch {
    Patch(if p.name.Some? then Some(Cut(p.name.value)) else None,
          if p.email.Some? then Some(Cut(p.email.value)) else None,
          if p.password.Some? then Some(Cut(p.password.value)) else None,
          p.role)
  }

  /** `v` is `u` updated by `p` at `now`, each assigned value as its column
      keeps it and every column `p` does not assign left alone. */
  predicate PatchedAs(v: User, u: User, p: Patch, now: Time) {
    && v.id == u.id && v.createdAt == u.createdAt && v.updatedAt == now
    && (if p.name.Some? then StoredAs(v.name, p.name.value) else v.name == u.name)
    && (if p.email.Some? then StoredAs(v.email, p.email.value) else v.email == u.email)
    && (if p.password.Some? then StoredAs(v.password, p.password.value) else v.password == u.password)
    && v.role == Override(p.role, u.role)
  }

  /** The result of an update: the row it returned, if any, and the new table. */
  datatype Updated = Updated(row: Option<User>, store: Store)

  /** `UPDATE users SET ... WHERE id = $id RETURNING ...`. The assigned
      values are checked when they are bound and cast, before any row is
      read, so a bad value is refused even when no row matches. No matching
      row means nothing is returned and nothing changes; a matching row is
      replaced unless its new email is held by another row. */
  function UpdateRow(store: Store, id: Id, p: Patch, now: Time): (r: DbResult<Updated>)
    ensures r.Done? <==>
              && PatchAssignable(p)
              && (id in store ==> !HeldByOther(store, ApplyPatch(store[id], CutPatch(p), now).email, id))
    ensures r.Done? && id !in store ==> r.value == Updated(None, store)
    ensures r.Done? && id in store ==>
              && r.value.row.Some?
              && PatchedAs(r.value.row.value, store[id], p, now)
              && r.value.store == store[id := r.value.row.value]
    ensures Valid(store) && r.Done? ==> Valid(r.value.store)
  {
    if !(Encodable(Override(p.name, "")) && Encodable(Override(p.email, ""))
         && Encodable(Override(p.password, ""))) then
      Rejected(InvalidText)
    else if !PatchAssignable(p) then Rejected(ValueTooLong)
    else if id !in store then Done(Updated(None, store))
    else
      var row := ApplyPatch(store[id], CutPatch(p), now);
      if HeldByOther(store, row.email, id) then Rejected(DuplicateKey("email"))
      else Done(Updated(Some(row), store[id := row]))
  }

  /** `DELETE FROM users WHERE id = $id`: drops the row with that id, if any. */
  function DeleteRow(store: Store, id: Id): (r: Store)
    ensures r.Keys == store.Keys - {id}
    ensures forall k | k in r :: r[k] == store[k]
    ensures Valid(store) ==> Valid(r)
  {
    store - {id}
  }
}
