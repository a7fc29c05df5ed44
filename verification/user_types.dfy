/** The shapes exchanged between the HTTP layer and the user service:
    the role enumeration, the create and update requests, the public
    response (which has no password field) and the error kinds the
    service throws. */
module UserTypes {

  /** Opaque identifier of a stored user. */
  type Id = string

  /** An abstract timestamp; the clock itself is a parameter of the operations. */
  type Time = int

  /** A field that a request may leave out (TypeScript's `field?: T`). */
  datatype Option<+T> = None | Some(value: T)

  /** JavaScript truthiness of an optional string: present and not "". */
  predicate Truthy(s: Option<string>) {
    s.Some? && |s.value| > 0
  }

  /** `UserRole`: exactly one of four values. */
  datatype Role = Admin | Doctor | Patient | Receptionist

  /** The label a role carries in JSON and in the database enum. */
  function RoleName(r: Role): string {
    match r
    case Admin => "ADMIN"
    case Doctor => "DOCTOR"
    case Patient => "PATIENT"
    case Receptionist => "RECEPTIONIST"
  }

  /** Reads a label back; anything but the four labels is not a role. */
  function ParseRole(s: string): Option<Role> {
    if s == "ADMIN" then Some(Admin)
    else if s == "DOCTOR" then Some(Doctor)
    else if s == "PATIENT" then Some(Patient)
    else if s == "RECEPTIONIST" then Some(Receptionist)
    else None
  }

  /** The labels and the roles are in one-to-one correspondence. */
  lemma RoleLabelsRoundTrip(r: Role, s: string)
    ensures ParseRole(RoleName(r)) == Some(r)
    ensures ParseRole(s) == Some(r) <==> RoleName(r) == s
  {
  }

  /** `CreateUserDto`: every field is required. */
  datatype CreateUserDto = CreateUserDto(name: string, email: string, password: string, role: Role)

  /** `UpdateUserDto`: any subset of the fields. */
  datatype UpdateUserDto = UpdateUserDto(
    name: Option<string>,
    email: Option<string>,
    password: Option<string>,
    role: Option<Role>)

  /** `UserResponse`: the public projection of a user; there is no password
      field, so no value of this type can carry one. */
  datatype UserResponse = UserResponse(
    id: Id,
    name: string,
    email: string,
    role: Role,
    createdAt: Time,
    updatedAt: Time)

  /** What a service call may throw. `ValidationError` and `ConflictError` are
      the two domain errors; `OtherError` is every other `Error` (those the
      database driver raises, a body that is not JSON). */
  datatype ServiceError =
    | ValidationError(message: string)
    | ConflictError(message: string)
    | OtherError(message: string)

  /** An async call either resolves with a value or rejects with an error. */
  datatype Outcome<+T> = Returned(value: T) | Threw(error: ServiceError)
}
